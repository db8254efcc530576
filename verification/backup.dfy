/** One backup pass (CallLogBackupAgent.runBackup): every call whose id the
    state does not hold yet is written as an entity keyed by its decimal id,
    and its id joins the state once the write succeeds. Calls already in the
    state count as backed up. The pass reports how many calls it backed up
    and how many failed. */
module Backup {
  import opened Wire
  import opened CallLog
  import opened Decimal
  import opened RecordCodec
  import opened StateCodec

  /** The BackupDataOutput runBackup writes to: null, or a transport whose
      writeEntityData throws for the calls with the listed ids. */
  datatype Output = Absent | Present(failingIds: set<int32>)

  /** What a pass leaves behind: the entities written in order, the updated
      state and the counts handed to the event logger. */
  datatype BackupPass = BackupPass(entities: seq<Entity>, state: BackupState, succeeded: nat, failed: nat)

  /** The entity a call is written as: its decimal id and its record payload. */
  function EntityOf(c: Call): Entity
    requires EncodableV1(c)
  {
    Entity(DecimalString(c.id), EncodeV1(c).value)
  }

  /** A written entity's key reads back as the call's id and its payload
      decodes to the call's record fields. */
  lemma EntityRoundTrip(c: Call)
    requires EncodableV1(c)
    ensures ParseInt(EntityOf(c).key) == Some(c.id)
    ensures DecodeRecord(EntityOf(c).data) == Ok(V1View(c))
  {
    EntityKeyRoundTrip(c);
    RecordRoundTrip(c);
  }

  lemma EntityKeyRoundTrip(c: Call)
    requires EncodableV1(c)
    ensures ParseInt(EntityOf(c).key) == Some(c.id)
  {
    ParseIntOfDecimalString(c.id);
  }

  /** Both writes for the call go through: the output is there, its payload
      can be encoded, and the transport accepts it. */
  predicate Written(out: Output, c: Call) {
    out.Present? && c.id !in out.failingIds && EncodableV1(c)
  }

  /** One iteration of the pass over a call. */
  function Step(p: BackupPass, out: Output, c: Call): BackupPass {
    if c.id in p.state.callIds then p.(succeeded := p.succeeded + 1)
    else if Written(out, c) then
      p.(entities := p.entities + [EntityOf(c)],
         state := p.state.(callIds := p.state.callIds + {c.id}),
         succeeded := p.succeeded + 1)
    else p.(failed := p.failed + 1)
  }

  /** The pass over a list of calls, one call at a time in list order; the
      state it writes is at the current VERSION. */
  function BackupOf(prior: BackupState, out: Output, calls: seq<Call>): BackupPass
    decreases |calls|
  {
    if calls == [] then BackupPass([], BackupState(VERSION, prior.callIds), 0, 0)
    else Step(BackupOf(prior, out, calls[..|calls| - 1]), out, calls[|calls| - 1])
  }

  /** CallLogBackupAgent.runBackup. */
  method RunBackup(prior: BackupState, out: Output, calls: seq<Call>) returns (p: BackupPass)
    ensures p == BackupOf(prior, out, calls)
  {
    var entities: seq<Entity> := [];
    var ids := prior.callIds;
    var succeeded := 0;
    var failed := 0;
    var i := 0;
    while i < |calls|
      invariant 0 <= i <= |calls|
      invariant BackupOf(prior, out, calls[..i]) ==
                BackupPass(entities, BackupState(VERSION, ids), succeeded, failed)
    {
      var c := calls[i];
      assert calls[..i + 1][..i] == calls[..i];
      if c.id in ids {
        succeeded := succeeded + 1;
      } else if out.Present? && c.id !in out.failingIds && EncodableV1(c) {
        entities := entities + [EntityOf(c)];
        ids := ids + {c.id};
        succeeded := succeeded + 1;
      } else {
        failed := failed + 1;
      }
      i := i + 1;
    }
    assert calls[..i] == calls;
    p := BackupPass(entities, BackupState(VERSION, ids), succeeded, failed);
  }

  /** Every call is counted exactly once, as a success or as a failure, and
      no more entities are written than calls succeed. */
  lemma {:induction false} BackupCounts(prior: BackupState, out: Output, calls: seq<Call>)
    ensures BackupOf(prior, out, calls).succeeded + BackupOf(prior, out, calls).failed == |calls|
    ensures |BackupOf(prior, out, calls).entities| <= BackupOf(prior, out, calls).succeeded
    decreases |calls|
  {
    if calls != [] {
      BackupCounts(prior, out, calls[..|calls| - 1]);
    }
  }

  /** The ids of the calls whose writes go through. */
  function WrittenIds(out: Output, calls: seq<Call>): set<int32>
    decreases |calls|
  {
    if calls == [] then {}
    else
      var c := calls[|calls| - 1];
      WrittenIds(out, calls[..|calls| - 1]) + (if Written(out, c) then {c.id} else {})
  }

  /** An id is a written id exactly when some call with that id is written. */
  lemma {:induction false} WrittenIdsMembers(out: Output, calls: seq<Call>, x: int32)
    ensures x in WrittenIds(out, calls) <==>
            exists i :: 0 <= i < |calls| && calls[i].id == x && Written(out, calls[i])
    decreases |calls|
  {
    if calls != [] {
      var init := calls[..|calls| - 1];
      WrittenIdsMembers(out, init, x);
      if x in WrittenIds(out, init) {
        var i :| 0 <= i < |init| && init[i].id == x && Written(out, init[i]);
        assert calls[i] == init[i];
      }
      if exists i :: 0 <= i < |calls| && calls[i].id == x && Written(out, calls[i]) {
        var i :| 0 <= i < |calls| && calls[i].id == x && Written(out, calls[i]);
        if i < |init| {
          assert init[i] == calls[i];
        }
      }
    }
  }

  /** The new state holds exactly the prior ids and the ids of the calls
      whose writes went through, and is at the current VERSION. */
  lemma {:induction false} BackupStateIds(prior: BackupState, out: Output, calls: seq<Call>)
    ensures BackupOf(prior, out, calls).state == BackupState(VERSION, prior.callIds + WrittenIds(out, calls))
    decreases |calls|
  {
    if calls != [] {
      BackupStateIds(prior, out, calls[..|calls| - 1]);
    }
  }

  /** Every entity's key reads back as an id the state holds. */
  predicate KeysInState(p: BackupPass) {
    forall k :: 0 <= k < |p.entities| ==>
      ParseInt(p.entities[k].key).Some? && ParseInt(p.entities[k].key).value in p.state.callIds
  }

  predicate DistinctKeys(es: seq<Entity>) {
    forall k, l :: 0 <= k < l < |es| ==> es[k].key != es[l].key
  }

  /** Every entity of a pass is keyed by an id its state holds. */
  lemma {:induction false} BackupKeysInState(prior: BackupState, out: Output, calls: seq<Call>)
    ensures KeysInState(BackupOf(prior, out, calls))
    decreases |calls|
  {
    if calls != [] {
      var c := calls[|calls| - 1];
      BackupKeysInState(prior, out, calls[..|calls| - 1]);
      var q := BackupOf(prior, out, calls[..|calls| - 1]);
      var p := BackupOf(prior, out, calls);
      if c.id !in q.state.callIds && Written(out, c) {
        EntityKeyRoundTrip(c);
        assert p.entities == q.entities + [EntityOf(c)];
        assert p.state.callIds == q.state.callIds + {c.id};
      } else {
        assert p.entities == q.entities && p.state.callIds == q.state.callIds;
      }
      forall k | 0 <= k < |p.entities|
        ensures ParseInt(p.entities[k].key).Some? && ParseInt(p.entities[k].key).value in p.state.callIds
      {
        if k < |q.entities| {
          assert p.entities[k] == q.entities[k];
        }
      }
    }
  }

  lemma DistinctKeysSnoc(es: seq<Entity>, e: Entity)
    requires DistinctKeys(es)
    requires forall k :: 0 <= k < |es| ==> es[k].key != e.key
    ensures DistinctKeys(es + [e])
  {
    var es' := es + [e];
    forall k, l | 0 <= k < l < |es'| ensures es'[k].key != es'[l].key {
      assert es'[k] == es[k];
    }
  }

  /** No two entities of a pass share a key: a call is written at most once. */
  lemma {:induction false} BackupKeysDistinct(prior: BackupState, out: Output, calls: seq<Call>)
    ensures DistinctKeys(BackupOf(prior, out, calls).entities)
    decreases |calls|
  {
    if calls != [] {
      var c := calls[|calls| - 1];
      BackupKeysDistinct(prior, out, calls[..|calls| - 1]);
      BackupKeysInState(prior, out, calls[..|calls| - 1]);
      var q := BackupOf(prior, out, calls[..|calls| - 1]);
      var es := BackupOf(prior, out, calls).entities;
      var n := |q.entities|;
      if c.id !in q.state.callIds && Written(out, c) {
        var e := EntityOf(c);
        EntityKeyRoundTrip(c);
        assert es == q.entities + [e];
        forall k | 0 <= k < n ensures q.entities[k].key != e.key {
          assert ParseInt(q.entities[k].key).value in q.state.callIds;
        }
        DistinctKeysSnoc(q.entities, e);
      } else {
        assert es == q.entities;
      }
    }
  }

  /** A call already backed up is never written again: each entity of a pass
      is the entity of a call in the list whose id the prior state did not
      hold and whose writes went through. */
  lemma {:induction false} BackupEntityIsNew(prior: BackupState, out: Output, calls: seq<Call>, k: nat)
    requires k < |BackupOf(prior, out, calls).entities|
    ensures exists i :: 0 <= i < |calls| && Written(out, calls[i]) && calls[i].id !in prior.callIds &&
                        BackupOf(prior, out, calls).entities[k] == EntityOf(calls[i])
    decreases |calls|
  {
    var init := calls[..|calls| - 1];
    var q := BackupOf(prior, out, init);
    var es := BackupOf(prior, out, calls).entities;
    if k < |q.entities| {
      BackupEntityIsNew(prior, out, init, k);
      var i :| 0 <= i < |init| && Written(out, init[i]) && init[i].id !in prior.callIds &&
               q.entities[k] == EntityOf(init[i]);
      BackupEntitiesPrefix(prior, out, calls);
      assert calls[i] == init[i] && es[k] == q.entities[k];
    } else {
      BackupLastEntity(prior, out, calls);
    }
  }

  /** A pass keeps the entities written before the last call. */
  lemma BackupEntitiesPrefix(prior: BackupState, out: Output, calls: seq<Call>)
    requires calls != []
    ensures var q := BackupOf(prior, out, calls[..|calls| - 1]);
            BackupOf(prior, out, calls).entities[..|q.entities|] == q.entities
  {
  }

  /** An entity past those written before the last call is the last call's,
      and the last call was new to the prior state and written. */
  lemma BackupLastEntity(prior: BackupState, out: Output, calls: seq<Call>)
    requires calls != []
    ensures var q := BackupOf(prior, out, calls[..|calls| - 1]);
            var c := calls[|calls| - 1];
            var es := BackupOf(prior, out, calls).entities;
            |es| > |q.entities| ==>
              Written(out, c) && c.id !in prior.callIds && es[|q.entities|] == EntityOf(c) &&
              |es| == |q.entities| + 1
  {
    BackupStateIds(prior, out, calls[..|calls| - 1]);
  }

  /** The number of calls whose ids a set does not hold. */
  function CountNew(ids: set<int32>, calls: seq<Call>): (n: nat)
    ensures n <= |calls|
    decreases |calls|
  {
    if calls == [] then 0
    else CountNew(ids, calls[..|calls| - 1]) + (if calls[|calls| - 1].id in ids then 0 else 1)
  }

  /** With a null output nothing is written and the state is unchanged; every
      call new to the state fails, every other call counts as backed up. */
  lemma {:induction false} BackupWithoutOutput(prior: BackupState, calls: seq<Call>)
    ensures BackupOf(prior, Absent, calls).entities == []
    ensures BackupOf(prior, Absent, calls).state == BackupState(VERSION, prior.callIds)
    ensures BackupOf(prior, Absent, calls).failed == CountNew(prior.callIds, calls)
    ensures BackupOf(prior, Absent, calls).succeeded == |calls| - CountNew(prior.callIds, calls)
    decreases |calls|
  {
    if calls != [] {
      BackupWithoutOutput(prior, calls[..|calls| - 1]);
    }
  }

  /** The ids of a list of calls are pairwise distinct. */
  predicate DistinctIds(calls: seq<Call>) {
    forall i, j :: 0 <= i < j < |calls| ==> calls[i].id != calls[j].id
  }

  /** The calls whose ids a set does not hold, in list order. */
  function NewCalls(ids: set<int32>, calls: seq<Call>): (r: seq<Call>)
    ensures |r| == CountNew(ids, calls)
    ensures forall c :: c in r ==> c in calls && c.id !in ids
    decreases |calls|
  {
    if calls == [] then []
    else
      var c := calls[|calls| - 1];
      NewCalls(ids, calls[..|calls| - 1]) + (if c.id in ids then [] else [c])
  }

  /** When the transport accepts everything and the ids are distinct, the pass
      writes one entity per call new to the prior state, in list order, and
      every call counts as backed up. */
  lemma {:induction false} BackupAllWritten(prior: BackupState, calls: seq<Call>)
    requires DistinctIds(calls)
    requires forall c :: c in calls ==> EncodableV1(c)
    ensures var p := BackupOf(prior, Present({}), calls);
      && |p.entities| == |NewCalls(prior.callIds, calls)|
      && (forall k :: 0 <= k < |p.entities| ==> p.entities[k] == EntityOf(NewCalls(prior.callIds, calls)[k]))
      && p.succeeded == |calls| && p.failed == 0
    decreases |calls|
  {
    if calls != [] {
      var init := calls[..|calls| - 1];
      var c := calls[|calls| - 1];
      assert DistinctIds(init) by {
        forall i, j | 0 <= i < j < |init| ensures init[i].id != init[j].id {
          assert init[i] == calls[i] && init[j] == calls[j];
        }
      }
      assert forall x :: x in init ==> x in calls;
      BackupAllWritten(prior, init);
      BackupStateIds(prior, Present({}), init);
      var q := BackupOf(prior, Present({}), init);
      var newInit := NewCalls(prior.callIds, init);
      var p := BackupOf(prior, Present({}), calls);
      if c.id !in prior.callIds {
        assert c.id !in WrittenIds(Present({}), init) by {
          WrittenIdsMembers(Present({}), init, c.id);
        }
        assert c.id !in q.state.callIds;
        assert NewCalls(prior.callIds, calls) == newInit + [c];
        assert p.entities == q.entities + [EntityOf(c)];
        forall k | 0 <= k < |p.entities|
          ensures p.entities[k] == EntityOf(NewCalls(prior.callIds, calls)[k])
        {
          if k < |q.entities| {
            assert p.entities[k] == q.entities[k];
            assert NewCalls(prior.callIds, calls)[k] == newInit[k];
          }
        }
      } else {
        assert NewCalls(prior.callIds, calls) == newInit + [];
        assert p.entities == q.entities;
      }
    }
  }

  /** The calls new to the prior state whose writes go through, in list order. */
  function WrittenNew(ids: set<int32>, out: Output, calls: seq<Call>): (r: seq<Call>)
    ensures forall k :: 0 <= k < |r| ==> Written(out, r[k]) && r[k].id !in ids
    decreases |calls|
  {
    if calls == [] then []
    else
      var c := calls[|calls| - 1];
      WrittenNew(ids, out, calls[..|calls| - 1]) + (if c.id !in ids && Written(out, c) then [c] else [])
  }

  /** The number of calls new to the prior state whose writes fail. */
  function FailedNew(ids: set<int32>, out: Output, calls: seq<Call>): (n: nat)
    ensures n <= CountNew(ids, calls)
    decreases |calls|
  {
    if calls == [] then 0
    else
      var c := calls[|calls| - 1];
      FailedNew(ids, out, calls[..|calls| - 1]) + (if c.id !in ids && !Written(out, c) then 1 else 0)
  }

  /** For any transport and distinct ids: the entities are exactly those of
      the new calls whose writes go through, in list order; each new call
      whose write fails counts one failure, and every other call counts as
      backed up. */
  lemma {:induction false} BackupPartialWrites(prior: BackupState, out: Output, calls: seq<Call>)
    requires DistinctIds(calls)
    ensures var p := BackupOf(prior, out, calls);
      var written := WrittenNew(prior.callIds, out, calls);
      && |p.entities| == |written|
      && (forall k :: 0 <= k < |p.entities| ==> p.entities[k] == EntityOf(written[k]))
      && p.failed == FailedNew(prior.callIds, out, calls)
      && p.succeeded == |calls| - FailedNew(prior.callIds, out, calls)
    decreases |calls|
  {
    if calls != [] {
      var init := calls[..|calls| - 1];
      var c := calls[|calls| - 1];
      assert DistinctIds(init) by {
        forall i, j | 0 <= i < j < |init| ensures init[i].id != init[j].id {
          assert init[i] == calls[i] && init[j] == calls[j];
        }
      }
      BackupPartialWrites(prior, out, init);
      BackupStateIds(prior, out, init);
      BackupCounts(prior, out, init);
      var q := BackupOf(prior, out, init);
      var writtenInit := WrittenNew(prior.callIds, out, init);
      var p := BackupOf(prior, out, calls);
      if c.id !in prior.callIds {
        assert c.id !in WrittenIds(out, init) by {
          WrittenIdsMembers(out, init, c.id);
          forall i | 0 <= i < |init| ensures init[i].id != c.id {
            assert init[i] == calls[i];
          }
        }
        assert c.id !in q.state.callIds;
        if Written(out, c) {
          assert WrittenNew(prior.callIds, out, calls) == writtenInit + [c];
          assert p.entities == q.entities + [EntityOf(c)];
          forall k | 0 <= k < |p.entities|
            ensures p.entities[k] == EntityOf(WrittenNew(prior.callIds, out, calls)[k])
          {
            if k < |q.entities| {
              assert p.entities[k] == q.entities[k];
              assert WrittenNew(prior.callIds, out, calls)[k] == writtenInit[k];
            }
          }
        } else {
          assert WrittenNew(prior.callIds, out, calls) == writtenInit + [];
        }
      } else {
        assert WrittenNew(prior.callIds, out, calls) == writtenInit + [];
      }
    }
  }

  /** No calls: nothing is written and nothing is reported. */
  lemma BackupNoCalls(prior: BackupState, out: Output)
    ensures BackupOf(prior, out, []) == BackupPass([], BackupState(VERSION, prior.callIds), 0, 0)
  {
  }

  /** The suite's partial backup: with 101 already backed up and calls 101 and
      102, only "102" is written, and both calls count as backed up. */
  lemma BackupPartialExample()
    ensures var c101 := MakeCall(101, 0, 0, Ascii("555-1234"));
            var c102 := MakeCall(102, 0, 0, Ascii("555-5555"));
            var p := BackupOf(BackupState(VERSION, {101}), Present({}), [c101, c102]);
            && |p.entities| == 1 && p.entities[0].key == DecimalString(102)
            && p.succeeded == 2 && p.failed == 0
            && p.state.callIds == {101, 102}
  {
    var c101 := MakeCall(101, 0, 0, Ascii("555-1234"));
    var c102 := MakeCall(102, 0, 0, Ascii("555-5555"));
    var prior := BackupState(VERSION, {101});
    assert [c101, c102][..1] == [c101] && [c101][..0] == [];
    var start := BackupOf(prior, Present({}), []);
    assert start == BackupPass([], prior, 0, 0);
    assert c101.id == 101;
    var first := BackupOf(prior, Present({}), [c101]);
    assert first == Step(start, Present({}), c101);
    assert first == BackupPass([], prior, 1, 0);
    assert EncodableV1(c102);
  }

  /** The suite's failing backups: one new call, and a transport that throws
      on its data, or no output at all. One failure, no success. */
  lemma BackupFailureExamples()
    ensures var c := MakeCall(101, 0, 0, Ascii("555-5555"));
            var thrown := BackupOf(BackupState(VERSION, {}), Present({101}), [c]);
            var absent := BackupOf(BackupState(VERSION, {}), Absent, [c]);
            && thrown.succeeded == 0 && thrown.failed == 1 && thrown.entities == []
            && absent.succeeded == 0 && absent.failed == 1 && absent.entities == []
  {
    var c := MakeCall(101, 0, 0, Ascii("555-5555"));
    assert [c][..0] == [];
  }
}
