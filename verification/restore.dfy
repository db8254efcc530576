/** Restoring call log entities into the call log (CallLogBackupAgent.onRestore).
    Each entity's payload is decoded; a payload that does not decode (too
    short, or a record version newer than VERSION) counts as one failed
    entity. A decoded call is inserted into the store, unless deduplication
    is on and the store already has a row with the same date and number.
    Batched deduplication gathers calls into batches, checks each batch
    against the store with one bulk query and inserts the new ones. The
    store is the multiset of (date, number) keys of its rows. */
module Restore {
  import opened Wire
  import opened CallLog
  import opened Decimal
  import opened RecordCodec

  /** The columns SELECTION_CALL_DATE_AND_NUMBER compares. */
  datatype RowKey = RowKey(date: int64, number: Option<Text>)

  function KeyOf(c: Call): RowKey {
    RowKey(c.date, c.number)
  }

  function Keys(calls: seq<Call>): (r: seq<RowKey>)
    ensures |r| == |calls|
  {
    seq(|calls|, i requires 0 <= i < |calls| => KeyOf(calls[i]))
  }

  lemma KeysSnoc(calls: seq<Call>, c: Call)
    ensures Keys(calls + [c]) == Keys(calls) + [KeyOf(c)]
  {
  }

  /** The call log rows, by key. */
  type Store = multiset<RowKey>

  /** The deduplication flags: off, one query per call, or one query per
      batch of the given size. */
  datatype DedupMode = Disabled | PerRecord | Batched(size: nat)

  /** FakeCallLogBackupAgent.getBatchSize. */
  const TEST_BATCH_SIZE: nat := 10

  /** The keys inserted one at a time, each only when the store does not hold
      it yet. The store only grows, and only by keys from the list. */
  function InsertAbsent(store: Store, keys: seq<RowKey>): (r: Store)
    ensures store <= r && |store| <= |r|
    ensures forall k :: k in r ==> k in store || k in keys
    decreases |keys|
  {
    if keys == [] then store
    else
      var s := InsertAbsent(store, keys[..|keys| - 1]);
      var k := keys[|keys| - 1];
      if k in s then s else s + multiset{k}
  }

  /** The store after the keys are restored under a mode. */
  function Apply(mode: DedupMode, store: Store, keys: seq<RowKey>): (r: Store)
    ensures |store| <= |r|
  {
    if mode.Disabled? then store + multiset(keys) else InsertAbsent(store, keys)
  }

  /** The calls the payloads decode to, in order, and how many did not decode. */
  datatype Scan = Scan(calls: seq<Call>, failed: nat)

  /** Every payload decoded, in order. */
  function Decoded(es: seq<Entity>): (rs: seq<Result<Call>>)
    ensures |rs| == |es|
  {
    seq(|es|, i requires 0 <= i < |es| => DecodeRecord(es[i].data))
  }

  function ScanResults(rs: seq<Result<Call>>): (r: Scan)
    ensures |r.calls| + r.failed == |rs|
    decreases |rs|
  {
    if rs == [] then Scan([], 0)
    else
      var s := ScanResults(rs[..|rs| - 1]);
      match rs[|rs| - 1]
      case Ok(c) => s.(calls := s.calls + [c])
      case Err(_) => s.(failed := s.failed + 1)
  }

  function ScanEntities(es: seq<Entity>): (r: Scan)
    ensures |r.calls| + r.failed == |es|
  {
    ScanResults(Decoded(es))
  }

  /** What a restore leaves: the store, and the counts reported to the event
      logger as restored and as failed. */
  datatype Outcome = Outcome(store: Store, restored: nat, failed: nat)

  function RestoreOf(mode: DedupMode, store: Store, es: seq<Entity>): Outcome {
    var scan := ScanEntities(es);
    var after := Apply(mode, store, Keys(scan.calls));
    Outcome(after, |after| - |store|, scan.failed)
  }

  /** A key the store holds keeps its rows; a key it lacks gets exactly one
      row when the list names it, and none otherwise. */
  lemma {:induction false} InsertAbsentCount(store: Store, keys: seq<RowKey>, k: RowKey)
    ensures InsertAbsent(store, keys)[k] ==
            if store[k] > 0 then store[k] else if k in keys then 1 else 0
    decreases |keys|
  {
    if keys != [] {
      var init := keys[..|keys| - 1];
      InsertAbsentCount(store, init, k);
      assert keys == init + [keys[|keys| - 1]];
    }
  }

  /** Each key adds at most one row. */
  lemma {:induction false} InsertAbsentSize(store: Store, keys: seq<RowKey>)
    ensures |InsertAbsent(store, keys)| <= |store| + |keys|
    decreases |keys|
  {
    if keys != [] {
      InsertAbsentSize(store, keys[..|keys| - 1]);
    }
  }

  /** Inserting two lists one after the other is inserting their
      concatenation: batches compose. */
  lemma {:induction false} InsertAbsentAppend(store: Store, a: seq<RowKey>, b: seq<RowKey>)
    ensures InsertAbsent(store, a + b) == InsertAbsent(InsertAbsent(store, a), b)
    decreases |b|
  {
    if b == [] {
      assert a + b == a;
    } else {
      assert (a + b)[..|a + b| - 1] == a + b[..|b| - 1];
      InsertAbsentAppend(store, a, b[..|b| - 1]);
    }
  }

  /** Restoring the same keys a second time adds nothing. */
  lemma InsertAbsentIdempotent(store: Store, keys: seq<RowKey>)
    ensures InsertAbsent(InsertAbsent(store, keys), keys) == InsertAbsent(store, keys)
  {
    var once := InsertAbsent(store, keys);
    forall k ensures InsertAbsent(once, keys)[k] == once[k] {
      InsertAbsentCount(once, keys, k);
      InsertAbsentCount(store, keys, k);
    }
  }

  /** Keys that are pairwise distinct and absent from the store are all
      inserted. */
  lemma InsertAbsentDistinct(store: Store, keys: seq<RowKey>)
    requires forall i, j :: 0 <= i < j < |keys| ==> keys[i] != keys[j]
    requires forall k :: k in keys ==> k !in store
    ensures InsertAbsent(store, keys) == store + multiset(keys)
  {
    forall k ensures InsertAbsent(store, keys)[k] == (store + multiset(keys))[k] {
      InsertAbsentCount(store, keys, k);
      if k in keys {
        var i :| 0 <= i < |keys| && keys[i] == k;
        DistinctCount(keys, i);
      }
    }
  }

  lemma {:induction false} DistinctCount(keys: seq<RowKey>, i: nat)
    requires forall a, b :: 0 <= a < b < |keys| ==> keys[a] != keys[b]
    requires i < |keys|
    ensures multiset(keys)[keys[i]] == 1
    decreases |keys|
  {
    var init := keys[..|keys| - 1];
    var last := keys[|keys| - 1];
    assert keys == init + [last];
    if i < |init| {
      DistinctCount(init, i);
      assert init[i] == keys[i] != last;
    } else {
      assert last !in init by {
        forall j | 0 <= j < |init| ensures init[j] != last {
          assert init[j] == keys[j];
        }
      }
    }
  }

  /** One bulk existence query for the batch, then the keys the store does
      not hold, each once, are inserted. */
  method FlushBatch(store: Store, batch: seq<RowKey>) returns (after: Store, inserted: nat)
    ensures after == InsertAbsent(store, batch)
    ensures inserted == |after| - |store|
  {
    var existing := set k | k in batch && k in store;
    var absent: seq<RowKey> := [];
    var seen: set<RowKey> := {};
    for i := 0 to |batch|
      invariant InsertAbsent(store, batch[..i]) == store + multiset(absent)
      invariant forall k :: k in seen <==> k in multiset(absent)
      invariant forall k :: k in seen ==> k !in store
    {
      var k := batch[i];
      assert batch[..i + 1][..i] == batch[..i];
      if k !in existing && k !in seen {
        absent := absent + [k];
        seen := seen + {k};
      }
    }
    assert batch[..|batch|] == batch;
    after := store + multiset(absent);
    inserted := |absent|;
  }

  /** What the store becomes under the mode, given the keys still waiting in
      the current batch. */
  function Settled(mode: DedupMode, store: Store, batch: seq<RowKey>): Store {
    if mode.Batched? then InsertAbsent(store, batch) else store
  }

  /** One more key restored under the mode. */
  function AddKey(mode: DedupMode, store: Store, k: RowKey): Store {
    if mode.Disabled? then store + multiset{k} else InsertAbsent(store, [k])
  }

  /** Restoring one more key is adding it to what the earlier keys left. */
  lemma ApplySnoc(mode: DedupMode, store: Store, keys: seq<RowKey>, k: RowKey)
    ensures Apply(mode, store, keys + [k]) == AddKey(mode, Apply(mode, store, keys), k)
  {
    if mode.Disabled? {
      assert multiset(keys + [k]) == multiset(keys) + multiset{k};
    } else {
      InsertAbsentAppend(store, keys, [k]);
    }
  }

  /** Restores one decoded call's key: inserted at once when deduplication is
      off, after a store query per call, or queued and flushed with its batch
      once the batch is full. */
  method RestoreKey(mode: DedupMode, rows: Store, batch: seq<RowKey>, k: RowKey)
    returns (rows': Store, batch': seq<RowKey>, inserted: nat)
    requires !mode.Batched? ==> batch == []
    ensures Settled(mode, rows', batch') == AddKey(mode, Settled(mode, rows, batch), k)
    ensures !mode.Batched? ==> batch' == []
    ensures rows <= rows' && inserted == |rows'| - |rows|
  {
    match mode
    case Disabled =>
      rows', batch', inserted := rows + multiset{k}, [], 1;
    case PerRecord =>
      assert [k][..0] == [];
      assert InsertAbsent(rows, [k]) == if k in rows then rows else rows + multiset{k};
      if k in rows {
        rows', batch', inserted := rows, [], 0;
      } else {
        rows', batch', inserted := rows + multiset{k}, [], 1;
      }
    case Batched(size) =>
      InsertAbsentAppend(rows, batch, [k]);
      batch' := batch + [k];
      if |batch'| >= size {
        rows', inserted := FlushBatch(rows, batch');
        batch' := [];
        assert InsertAbsent(rows', []) == rows';
      } else {
        rows', inserted := rows, 0;
      }
  }

  /** One decoded call restored in the middle of a restore: the store and
      the pending batch keep standing for all keys restored so far, and the
      count of restored rows stays the store's growth. */
  method RestoreCall(mode: DedupMode, ghost store: Store, rows: Store, batch: seq<RowKey>,
                     restored: nat, ghost keys: seq<RowKey>, k: RowKey)
    returns (rows': Store, batch': seq<RowKey>, restored': nat)
    requires !mode.Batched? ==> batch == []
    requires Settled(mode, rows, batch) == Apply(mode, store, keys)
    requires store <= rows && restored == |rows| - |store|
    ensures Settled(mode, rows', batch') == Apply(mode, store, keys + [k])
    ensures !mode.Batched? ==> batch' == []
    ensures store <= rows' && restored' == |rows'| - |store|
  {
    ApplySnoc(mode, store, keys, k);
    var n;
    rows', batch', n := RestoreKey(mode, rows, batch, k);
    restored' := restored + n;
  }

  /** Scanning one more payload either appends its call or counts a failure. */
  lemma ScanStep(rs: seq<Result<Call>>, i: nat)
    requires i < |rs|
    ensures var s := ScanResults(rs[..i]);
            ScanResults(rs[..i + 1]) ==
              if rs[i].Ok? then s.(calls := s.calls + [rs[i].value]) else s.(failed := s.failed + 1)
  {
    assert rs[..i + 1][..i] == rs[..i];
  }

  /** CallLogBackupAgent.onRestore: reads the entities in order and restores
      each call that decodes, under the deduplication mode. */
  method RestoreEntities(mode: DedupMode, store: Store, es: seq<Entity>) returns (o: Outcome)
    ensures o == RestoreOf(mode, store, es)
  {
    ghost var rs := Decoded(es);
    var rows := store;
    var restored := 0;
    var failed := 0;
    var batch: seq<RowKey> := [];
    for i := 0 to |es|
      invariant failed == ScanResults(rs[..i]).failed
      invariant Settled(mode, rows, batch) == Apply(mode, store, Keys(ScanResults(rs[..i]).calls))
      invariant !mode.Batched? ==> batch == []
      invariant store <= rows && restored == |rows| - |store|
    {
      ghost var decoded := ScanResults(rs[..i]).calls;
      ScanStep(rs, i);
      var r := DecodeRecord(es[i].data);
      assert r == rs[i];
      if r.Err? {
        failed := failed + 1;
      } else {
        KeysSnoc(decoded, r.value);
        rows, batch, restored := RestoreCall(mode, store, rows, batch, restored, Keys(decoded), KeyOf(r.value));
      }
    }
    assert rs[..|es|] == rs;
    rows, restored := FlushRemaining(mode, store, rows, batch, restored);
    o := Outcome(rows, restored, failed);
  }

  /** The end of a restore: the calls still waiting in the batch are
      flushed. */
  method FlushRemaining(mode: DedupMode, ghost store: Store, rows: Store, batch: seq<RowKey>, restored: nat)
    returns (rows': Store, restored': nat)
    requires !mode.Batched? ==> batch == []
    requires store <= rows && restored == |rows| - |store|
    ensures rows' == Settled(mode, rows, batch)
    ensures store <= rows' && restored' == |rows'| - |store|
  {
    rows', restored' := rows, restored;
    if batch != [] {
      var n;
      rows', n := FlushBatch(rows, batch);
      restored' := restored + n;
    } else {
      assert InsertAbsent(rows, []) == rows;
    }
  }

  /** Every entity is accounted for at most once: as restored, as failed, or
      as a duplicate that counts as neither. With deduplication off, every
      call that decodes is restored. */
  lemma RestoreCounts(mode: DedupMode, store: Store, es: seq<Entity>)
    ensures RestoreOf(mode, store, es).restored + RestoreOf(mode, store, es).failed <= |es|
    ensures mode.Disabled? ==>
              RestoreOf(mode, store, es).restored + RestoreOf(mode, store, es).failed == |es|
  {
    InsertAbsentSize(store, Keys(ScanEntities(es).calls));
  }

  /** With deduplication on, a key the store already holds keeps exactly its
      rows, and any other key restored ends up with exactly one row. */
  lemma RestoreRowCounts(mode: DedupMode, store: Store, es: seq<Entity>, k: RowKey)
    requires !mode.Disabled?
    ensures RestoreOf(mode, store, es).store[k] ==
            if store[k] > 0 then store[k]
            else if k in Keys(ScanEntities(es).calls) then 1 else 0
  {
    InsertAbsentCount(store, Keys(ScanEntities(es).calls), k);
  }

  /** With deduplication on, restoring the same entities again changes
      nothing and restores nothing. */
  lemma RestoreRepeated(mode: DedupMode, store: Store, es: seq<Entity>)
    requires !mode.Disabled?
    ensures var first := RestoreOf(mode, store, es);
            RestoreOf(mode, first.store, es) == Outcome(first.store, 0, first.failed)
  {
    InsertAbsentIdempotent(store, Keys(ScanEntities(es).calls));
  }

  /** With deduplication off, restoring the same entities again adds every
      decoded call a second time. */
  lemma RestoreRepeatedDisabled(store: Store, es: seq<Entity>)
    ensures var keys := multiset(Keys(ScanEntities(es).calls));
            var first := RestoreOf(Disabled, store, es);
            RestoreOf(Disabled, first.store, es).store == store + keys + keys
  {
  }

  /** A payload declaring a version above VERSION is refused and counted as
      one failure, whatever follows its version. */
  lemma RestoreRejectsFutureVersion(mode: DedupMode, store: Store, key: Text, version: int32, rest: seq<byte>)
    requires version > VERSION
    ensures RestoreOf(mode, store, [Entity(key, EncodeInt(version) + rest)]) == Outcome(store, 0, 1)
  {
    DecodeRejectsFutureVersion(version, rest);
    var es := [Entity(key, EncodeInt(version) + rest)];
    assert Decoded(es) == [Err(FutureVersion(version))];
    assert Decoded(es)[..0] == [];
    assert Keys([]) == [];
    assert multiset(Keys([])) == multiset{};
  }

  /** The suite's higher-version restore hands over an empty payload: one
      failure, nothing restored. */
  lemma RestoreEmptyPayload(mode: DedupMode, store: Store)
    ensures RestoreOf(mode, store, [Entity(Ascii("1"), [])]) == Outcome(store, 0, 1)
  {
    var es := [Entity(Ascii("1"), [])];
    assert Decoded(es) == [Err(EndOfInput)];
    assert Decoded(es)[..0] == [];
    assert Keys([]) == [];
    assert multiset(Keys([])) == multiset{};
  }

  /** The entities the suite's mock restore input carries: the i-th is keyed
      by i and holds the version-1 record of the i-th call. */
  function MockEntities(calls: seq<Call>): (es: seq<Entity>)
    requires forall i :: 0 <= i < |calls| ==> EncodableV1(calls[i])
    ensures |es| == |calls|
  {
    seq(|calls|, i requires 0 <= i < |calls| => Entity(DecimalString(i), EncodeV1(calls[i]).value))
  }

  /** The suite's encoder loop body: writes one call's version-1 record
      field by field; writeUTF throws on a string too long for it. */
  method WriteRecordV1(c: Call) returns (r: Result<seq<byte>>)
    ensures r == EncodeV1(c)
  {
    var number :- EncodeNullable(c.number);
    var component :- EncodeNullable(c.accountComponentName);
    var account :- EncodeNullable(c.accountId);
    var address :- EncodeNullable(c.accountAddress);
    // What is still to be written after each field, as EncodeV1 nests it.
    ghost var s10 := EncodeInt(c.features);
    ghost var s9 := EncodeLong(c.dataUsage.GetOr(0)) + s10;
    ghost var s8 := address + s9;
    ghost var s7 := account + s8;
    ghost var s6 := component + s7;
    ghost var s5 := EncodeInt(c.numberPresentation) + s6;
    ghost var s4 := EncodeInt(c.callType) + s5;
    ghost var s3 := number + s4;
    ghost var s2 := EncodeLong(c.duration) + s3;
    ghost var s1 := EncodeLong(c.date) + s2;
    ghost var full := EncodeInt(1) + s1;
    assert full == EncodeV1(c).value;
    var data := EncodeInt(1);
    AppendAssoc(data, EncodeLong(c.date), s2);
    data := data + EncodeLong(c.date);
    AppendAssoc(data, EncodeLong(c.duration), s3);
    data := data + EncodeLong(c.duration);
    AppendAssoc(data, number, s4);
    data := data + number;
    AppendAssoc(data, EncodeInt(c.callType), s5);
    data := data + EncodeInt(c.callType);
    AppendAssoc(data, EncodeInt(c.numberPresentation), s6);
    data := data + EncodeInt(c.numberPresentation);
    AppendAssoc(data, component, s7);
    data := data + component;
    AppendAssoc(data, account, s8);
    data := data + account;
    AppendAssoc(data, address, s9);
    data := data + address;
    AppendAssoc(data, EncodeLong(c.dataUsage.GetOr(0)), s10);
    data := data + EncodeLong(c.dataUsage.GetOr(0));
    data := data + EncodeInt(c.features);
    return Ok(data);
  }

  lemma AppendAssoc(a: seq<byte>, b: seq<byte>, c: seq<byte>)
    ensures (a + b) + c == a + (b + c)
  {
  }

  /** mockBackupDataInputWithCalls: one entity per call, keyed by its
      position in the list. */
  method MockRestoreInput(calls: seq<Call>) returns (r: Result<seq<Entity>>)
    ensures r.Ok? <==> forall i :: 0 <= i < |calls| ==> EncodableV1(calls[i])
    ensures r.Ok? ==> r.value == MockEntities(calls)
  {
    var es: seq<Entity> := [];
    for i := 0 to |calls|
      invariant forall j :: 0 <= j < i ==> EncodableV1(calls[j])
      invariant es == MockEntities(calls[..i])
    {
      var data :- WriteRecordV1(calls[i]);
      MockEntitiesSnoc(calls, i);
      es := es + [Entity(DecimalString(i), data)];
    }
    assert calls[..|calls|] == calls;
    r := Ok(es);
  }

  lemma MockEntitiesSnoc(calls: seq<Call>, i: nat)
    requires i < |calls| && forall j :: 0 <= j <= i ==> EncodableV1(calls[j])
    ensures MockEntities(calls[..i + 1]) ==
            MockEntities(calls[..i]) + [Entity(DecimalString(i), EncodeV1(calls[i]).value)]
  {
  }

  /** The record fields of each call, in order. */
  function Views(calls: seq<Call>): (r: seq<Call>)
    ensures |r| == |calls|
  {
    seq(|calls|, i requires 0 <= i < |calls| => V1View(calls[i]))
  }

  /** Scanning a payload that decodes appends its call. */
  lemma ScanDecoded(rs: seq<Result<Call>>, i: nat, c: Call)
    requires i < |rs| && rs[i] == Ok(c)
    ensures ScanResults(rs[..i + 1]) == Scan(ScanResults(rs[..i]).calls + [c], ScanResults(rs[..i]).failed)
  {
    ScanStep(rs, i);
  }

  /** Every mock entity decodes, to the record fields of its call. */
  lemma MockEntitiesDecode(calls: seq<Call>)
    requires forall i :: 0 <= i < |calls| ==> EncodableV1(calls[i])
    ensures ScanEntities(MockEntities(calls)) == Scan(Views(calls), 0)
  {
    var views := Views(calls);
    var rs := Decoded(MockEntities(calls));
    forall i | 0 <= i < |rs| ensures rs[i] == Ok(views[i]) {
      MockEntityDecodes(calls, i);
    }
    ScanAllDecoded(rs, views, |rs|);
    assert rs[..|rs|] == rs && views[..|rs|] == views;
  }

  /** When every payload decodes, the scan of a prefix is the decoded calls
      of that prefix, with no failures. */
  lemma {:induction false} ScanAllDecoded(rs: seq<Result<Call>>, decoded: seq<Call>, n: nat)
    requires |rs| == |decoded| && n <= |rs|
    requires forall i :: 0 <= i < |rs| ==> rs[i] == Ok(decoded[i])
    ensures ScanResults(rs[..n]) == Scan(decoded[..n], 0)
  {
    if n == 0 {
      assert rs[..0] == [] && decoded[..0] == [];
    } else {
      ScanAllDecoded(rs, decoded, n - 1);
      ScanDecoded(rs, n - 1, decoded[n - 1]);
      assert decoded[..n] == decoded[..n - 1] + [decoded[n - 1]];
    }
  }

  lemma MockEntityDecodes(calls: seq<Call>, i: nat)
    requires forall i :: 0 <= i < |calls| ==> EncodableV1(calls[i])
    requires i < |calls|
    ensures DecodeRecord(MockEntities(calls)[i].data) == Ok(Views(calls)[i])
  {
    RecordRoundTrip(calls[i]);
  }

  /** A call and its record fields have the same deduplication key. */
  lemma KeysOfViews(calls: seq<Call>)
    ensures Keys(Views(calls)) == Keys(calls)
  {
  }

  /** Restoring the suite's mock input twice with deduplication on: the first
      restore inserts every call, the second inserts nothing. */
  lemma RestoreTwiceDedup(mode: DedupMode, store: Store, calls: seq<Call>)
    requires !mode.Disabled?
    requires forall i :: 0 <= i < |calls| ==> EncodableV1(calls[i])
    requires forall i, j :: 0 <= i < j < |calls| ==> KeyOf(calls[i]) != KeyOf(calls[j])
    requires forall i :: 0 <= i < |calls| ==> KeyOf(calls[i]) !in store
    ensures var es := MockEntities(calls);
            var first := RestoreOf(mode, store, es);
            && first == Outcome(store + multiset(Keys(calls)), |calls|, 0)
            && RestoreOf(mode, first.store, es) == Outcome(first.store, 0, 0)
  {
    var es := MockEntities(calls);
    MockEntitiesDecode(calls);
    KeysOfViews(calls);
    var keys := Keys(calls);
    forall k | k in keys ensures k !in store {
      var i :| 0 <= i < |keys| && keys[i] == k;
    }
    InsertAbsentDistinct(store, keys);
    RestoreRepeated(mode, store, es);
  }

  /** Restoring the suite's mock input twice with deduplication off adds
      every call twice. */
  lemma RestoreTwiceNoDedup(store: Store, calls: seq<Call>)
    requires forall i :: 0 <= i < |calls| ==> EncodableV1(calls[i])
    ensures var es := MockEntities(calls);
            var first := RestoreOf(Disabled, store, es);
            && first == Outcome(store + multiset(Keys(calls)), |calls|, 0)
            && RestoreOf(Disabled, first.store, es) ==
               Outcome(store + multiset(Keys(calls)) + multiset(Keys(calls)), |calls|, 0)
  {
    MockEntitiesDecode(calls);
    KeysOfViews(calls);
  }

  /** The row the suite puts in the call log before restoring. */
  const EXISTING_CALL := MakeCall(100, 1122334455, 30, Ascii("555-0000"))

  /** The suite's batched-restore calls: ids from 101, dates from 1234567890,
      durations from 60, all with number "555-4321". */
  function BatchTestCalls(n: nat): (calls: seq<Call>)
    requires n <= 1000
    ensures |calls| == n
    ensures forall i :: 0 <= i < n ==> EncodableV1(calls[i])
    ensures forall i :: 0 <= i < n ==> calls[i].date == 1234567890 + i
  {
    var calls := seq(n, i requires 0 <= i < n => MakeCall(101 + i, 1234567890 + i, 60 + i, Ascii("555-4321")));
    assert forall i :: 0 <= i < n ==> EncodableV1(calls[i]) && calls[i].date == 1234567890 + i by {
      forall i | 0 <= i < n ensures EncodableV1(calls[i]) && calls[i].date == 1234567890 + i {
        assert calls[i] == MakeCall(101 + i, 1234567890 + i, 60 + i, Ascii("555-4321"));
        MakeCallEncodable(101 + i, 1234567890 + i, 60 + i, Ascii("555-4321"));
      }
    }
    calls
  }

  lemma MakeCallEncodable(id: int32, date: int64, duration: int64, number: Text)
    requires |number| <= MAX_UTF_LENGTH
    ensures EncodableV1(MakeCall(id, date, duration, number))
  {
  }

  /** Restoring twice with deduplication on, over calls of distinct keys none
      of which the store holds: every call ends up with one row, every row
      already there keeps its count, and the store grows by the calls alone. */
  lemma RestoreTwiceDedupRows(mode: DedupMode, store: Store, calls: seq<Call>)
    requires !mode.Disabled?
    requires forall i :: 0 <= i < |calls| ==> EncodableV1(calls[i])
    requires forall i, j :: 0 <= i < j < |calls| ==> KeyOf(calls[i]) != KeyOf(calls[j])
    requires forall i :: 0 <= i < |calls| ==> KeyOf(calls[i]) !in store
    ensures var es := MockEntities(calls);
            var twice := RestoreOf(mode, RestoreOf(mode, store, es).store, es).store;
            && (forall k :: k in store ==> twice[k] == store[k])
            && (forall i :: 0 <= i < |calls| ==> twice[KeyOf(calls[i])] == 1)
            && |twice| == |store| + |calls|
  {
    RestoreTwiceDedup(mode, store, calls);
    AddDistinctRows(store, calls);
  }

  /** Adding the keys of calls with distinct keys absent from the store:
      every earlier key keeps its count and every call's key has one row. */
  lemma AddDistinctRows(store: Store, calls: seq<Call>)
    requires forall i, j :: 0 <= i < j < |calls| ==> KeyOf(calls[i]) != KeyOf(calls[j])
    requires forall i :: 0 <= i < |calls| ==> KeyOf(calls[i]) !in store
    ensures var after := store + multiset(Keys(calls));
            && (forall k :: k in store ==> after[k] == store[k])
            && (forall i :: 0 <= i < |calls| ==> after[KeyOf(calls[i])] == 1)
            && |after| == |store| + |calls|
  {
    var keys := Keys(calls);
    var after := store + multiset(keys);
    forall k | k in store ensures after[k] == store[k] {
      assert k !in keys by {
        forall i | 0 <= i < |keys| ensures keys[i] != k {
          assert KeyOf(calls[i]) !in store;
        }
      }
    }
    forall i | 0 <= i < |calls| ensures after[KeyOf(calls[i])] == 1 {
      assert keys[i] == KeyOf(calls[i]);
      DistinctCount(keys, i);
    }
  }

  /** The suite's deduplicating restores, twice over batchSize + 2 calls: each
      call ends up with one row, the existing row keeps its one row, and the
      call log grows by exactly the number of calls. */
  lemma BatchDedupExample(mode: DedupMode)
    requires !mode.Disabled?
    ensures var calls := BatchTestCalls(TEST_BATCH_SIZE + 2);
            var store := multiset{KeyOf(EXISTING_CALL)};
            var es := MockEntities(calls);
            var twice := RestoreOf(mode, RestoreOf(mode, store, es).store, es).store;
            && twice[KeyOf(EXISTING_CALL)] == 1
            && (forall i :: 0 <= i < |calls| ==> twice[KeyOf(calls[i])] == 1)
            && |twice| == 1 + |calls|
  {
    var calls := BatchTestCalls(TEST_BATCH_SIZE + 2);
    var existing := KeyOf(EXISTING_CALL);
    assert existing.date == 1122334455;
    RestoreTwiceDedupRows(mode, multiset{existing}, calls);
  }

  /** The suite's single-call restores, twice each: with deduplication on the
      call has one row, with it off two; the existing row keeps its one row. */
  lemma SingleCallExample(mode: DedupMode)
    ensures var call := MakeCall(101, 1234567890, 60, Ascii("555-4321"));
            var store := multiset{KeyOf(EXISTING_CALL)};
            var es := MockEntities([call]);
            var twice := RestoreOf(mode, RestoreOf(mode, store, es).store, es).store;
            && twice[KeyOf(EXISTING_CALL)] == 1
            && twice[KeyOf(call)] == (if mode.Disabled? then 2 else 1)
            && |twice| == (if mode.Disabled? then 3 else 2)
  {
    var call := MakeCall(101, 1234567890, 60, Ascii("555-4321"));
    var store := multiset{KeyOf(EXISTING_CALL)};
    assert EncodableV1(call) by {
      assert |Ascii("555-4321")| == 8;
    }
    assert Keys([call]) == [KeyOf(call)];
    if mode.Disabled? {
      RestoreTwiceNoDedup(store, [call]);
    } else {
      RestoreTwiceDedup(mode, store, [call]);
    }
  }

  /** Restoring a call whose key the store lacks adds exactly its one row,
      under every mode. */
  lemma RestoreNewCall(mode: DedupMode, store: Store, c: Call)
    requires EncodableV1(c) && KeyOf(c) !in store
    ensures RestoreOf(mode, store, MockEntities([c])) == Outcome(store + multiset{KeyOf(c)}, 1, 0)
  {
    assert Keys([c]) == [KeyOf(c)];
    if mode.Disabled? {
      RestoreTwiceNoDedup(store, [c]);
    } else {
      RestoreTwiceDedup(mode, store, [c]);
    }
  }

  /** Restoring two calls with different keys, neither in the store, one
      restore after the other: each gets exactly one row, under every mode. */
  lemma RestoreTwoNewCalls(mode: DedupMode, store: Store, c1: Call, c2: Call)
    requires EncodableV1(c1) && EncodableV1(c2)
    requires KeyOf(c1) != KeyOf(c2) && KeyOf(c1) !in store && KeyOf(c2) !in store
    ensures var first := RestoreOf(mode, store, MockEntities([c1])).store;
            RestoreOf(mode, first, MockEntities([c2])).store == store + multiset{KeyOf(c1), KeyOf(c2)}
  {
    RestoreNewCall(mode, store, c1);
    RestoreNewCall(mode, store + multiset{KeyOf(c1)}, c2);
  }

  /** The suite's restores of two different calls, one after the other:
      each ends up with one row and the existing row keeps its one row. */
  lemma DifferentEntriesExample(mode: DedupMode, call1: Call, call2: Call)
    requires call1 == MakeCall(101, 1234567890, 60, Ascii("555-4321"))
    requires call2 == MakeCall(102, 9876543210, 60, Ascii("555-1234"))
    ensures EncodableV1(call1) && EncodableV1(call2)
    ensures var store := multiset{KeyOf(EXISTING_CALL)};
            var first := RestoreOf(mode, store, MockEntities([call1])).store;
            var after := RestoreOf(mode, first, MockEntities([call2])).store;
            && after[KeyOf(EXISTING_CALL)] == 1 && after[KeyOf(call1)] == 1
            && after[KeyOf(call2)] == 1 && |after| == 3
  {
    MakeCallEncodable(101, 1234567890, 60, Ascii("555-4321"));
    MakeCallEncodable(102, 9876543210, 60, Ascii("555-1234"));
    var existing := KeyOf(EXISTING_CALL);
    assert existing.date == 1122334455;
    RestoreTwoNewCalls(mode, multiset{existing}, call1, call2);
  }
}
