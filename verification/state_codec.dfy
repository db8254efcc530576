/** The backup state blob: a version int, a count, then that many call ids,
    ascending (the agent keeps them in a TreeSet). Reading an input that ends
    before the version means there is no previous state. */
module StateCodec {
  import opened Wire
  import opened CallLog

  /** CallLogBackupAgent.CallLogBackupState. */
  datatype BackupState = BackupState(version: int32, callIds: set<int32>)

  const NO_PREVIOUS_STATE := BackupState(VERSION_NO_PREVIOUS_STATE, {})

  predicate StrictlyIncreasing(s: seq<int32>) {
    forall i, j :: 0 <= i < j < |s| ==> s[i] < s[j]
  }

  function Elements(s: seq<int32>): set<int32> {
    set x | x in s
  }

  predicate IsLeast(m: int32, s: set<int32>) {
    m in s && forall x :: x in s ==> m <= x
  }

  lemma {:induction false} LeastExists(s: set<int32>)
    requires s != {}
    ensures exists m :: IsLeast(m, s)
    decreases |s|
  {
    var x :| x in s;
    if s != {x} {
      var others := s - {x};
      LeastExists(others);
      var m :| IsLeast(m, others);
      var least := if x < m then x else m;
      forall y | y in s ensures least <= y {
        if y != x {
          assert y in others;
        }
      }
      assert IsLeast(least, s);
    } else {
      assert IsLeast(x, s);
    }
  }

  /** The ids of a set in the order a TreeSet iterates them: least first. */
  ghost function Ascending(s: set<int32>): seq<int32>
    decreases |s|
  {
    if s == {} then []
    else
      LeastExists(s);
      var m :| IsLeast(m, s);
      [m] + Ascending(s - {m})
  }

  /** The least id of a non-empty set is unique, so it heads the listing. */
  lemma AscendingFront(s: set<int32>, m: int32)
    requires IsLeast(m, s)
    ensures Ascending(s) == [m] + Ascending(s - {m})
  {
    LeastExists(s);
    forall m': int32 | IsLeast(m', s) ensures m' == m {
      assert m' <= m && m <= m';
    }
  }

  /** The ascending listing holds each id of the set exactly once, in
      increasing order. */
  lemma {:induction false} AscendingListsSet(s: set<int32>)
    ensures |Ascending(s)| == |s|
    ensures StrictlyIncreasing(Ascending(s))
    ensures Elements(Ascending(s)) == s
    decreases |s|
  {
    if s != {} {
      LeastExists(s);
      var m :| IsLeast(m, s);
      AscendingFront(s, m);
      var tail := Ascending(s - {m});
      AscendingListsSet(s - {m});
      forall k | 0 <= k < |tail| ensures m < tail[k] {
        assert tail[k] in Elements(tail);
      }
      ConsIncreasing(m, tail);
      ElementsCons(m, tail);
    }
  }

  lemma ConsIncreasing(m: int32, tail: seq<int32>)
    requires StrictlyIncreasing(tail)
    requires forall k :: 0 <= k < |tail| ==> m < tail[k]
    ensures StrictlyIncreasing([m] + tail)
  {
    var r := [m] + tail;
    forall i, j | 0 <= i < j < |r| ensures r[i] < r[j] {
      assert r[j] == tail[j - 1];
      if i > 0 {
        assert r[i] == tail[i - 1];
      }
    }
  }

  lemma ElementsCons(m: int32, tail: seq<int32>)
    ensures Elements([m] + tail) == {m} + Elements(tail)
  {
    var r := [m] + tail;
    forall x | x in Elements(r) ensures x in {m} + Elements(tail) {
      var k :| 0 <= k < |r| && r[k] == x;
      if k > 0 {
        assert tail[k - 1] == x;
      }
    }
    forall x | x in Elements(tail) ensures x in Elements(r) {
      var k :| 0 <= k < |tail| && tail[k] == x;
      assert r[k + 1] == x;
    }
  }

  /** The ascending order is the only strictly increasing listing of a set. */
  lemma {:induction false} AscendingUnique(s: set<int32>, r: seq<int32>)
    requires StrictlyIncreasing(r) && Elements(r) == s
    ensures r == Ascending(s)
    decreases |r|
  {
    if r == [] {
      assert s == {};
    } else {
      var m := r[0];
      var tail := r[1..];
      assert r == [m] + tail;
      assert IsLeast(m, s) by {
        forall x | x in s ensures m <= x {
          var j :| 0 <= j < |r| && r[j] == x;
        }
      }
      AscendingFront(s, m);
      assert m !in tail;
      assert Elements(tail) == s - {m} by {
        assert Elements(r) == {m} + Elements(tail);
      }
      AscendingUnique(s - {m}, tail);
    }
  }

  /** A run of ints written one after the other with writeInt. */
  function EncodeInts(xs: seq<int32>): (r: seq<byte>)
    ensures |r| == 4 * |xs|
  {
    if xs == [] then [] else EncodeInts(xs[..|xs| - 1]) + EncodeInt(xs[|xs| - 1])
  }

  /** The ints successive readInt calls return before the input runs out. */
  function IntsOf(s: seq<byte>): (r: seq<int32>)
    ensures |r| == |s| / 4
  {
    seq(|s| / 4, k requires 0 <= k < |s| / 4 => IntOf(s[4 * k..4 * k + 4]))
  }

  lemma {:induction false} EncodeIntsSlice(xs: seq<int32>, k: nat)
    requires k < |xs|
    ensures EncodeInts(xs)[4 * k..4 * k + 4] == EncodeInt(xs[k])
  {
    var init := xs[..|xs| - 1];
    if k < |init| {
      EncodeIntsSlice(init, k);
      assert EncodeInts(xs)[4 * k..4 * k + 4] == EncodeInts(init)[4 * k..4 * k + 4];
    }
  }

  /** Reading back a run of written ints gives exactly those ints. */
  lemma IntsOfEncodeInts(xs: seq<int32>)
    ensures IntsOf(EncodeInts(xs)) == xs
  {
    forall k | 0 <= k < |xs| ensures IntsOf(EncodeInts(xs))[k] == xs[k] {
      EncodeIntsSlice(xs, k);
      IntRoundTrip(xs[k]);
    }
  }

  /** What writeState writes: the version, the number of ids, then each id in
      ascending order. */
  ghost function SerializeState(st: BackupState): seq<byte>
    requires |st.callIds| < 0x8000_0000
  {
    EncodeInts([st.version, |st.callIds|] + Ascending(st.callIds))
  }

  /** What readState makes of an input: no previous state when the version
      cannot be read; otherwise the version, a count, and that many ids (none
      when the count is negative). Input that ends within the count or the ids
      is corrupt. */
  function ParseState(s: seq<byte>): Result<BackupState> {
    var ints := IntsOf(s);
    if |ints| == 0 then Ok(NO_PREVIOUS_STATE)
    else if |ints| == 1 then Err(EndOfInput)
    else
      var count: int := if ints[1] < 0 then 0 else ints[1];
      if |ints| < 2 + count then Err(EndOfInput)
      else Ok(BackupState(ints[0], Elements(ints[2..2 + count])))
  }

  /** CallLogBackupAgent.readState: reads the version, the count, then the ids
      one readInt at a time. */
  method ReadState(input: seq<byte>) returns (r: Result<BackupState>)
    ensures r == ParseState(input)
  {
    ghost var ints := IntsOf(input);
    if |input| < 4 {
      return Ok(NO_PREVIOUS_STATE);
    }
    var version := IntOf(input[..4]);
    assert input[..4] == input[0..4] && version == ints[0];
    if |input| < 8 {
      return Err(EndOfInput);
    }
    var size := IntOf(input[4..8]);
    assert size == ints[1];
    var ids: set<int32> := {};
    ghost var read: seq<int32> := [];
    var pos := 8;
    var i := 0;
    while i < size
      invariant 0 <= i && (size >= 0 ==> i <= size) && (size < 0 ==> i == 0)
      invariant pos == 8 + 4 * i <= |input|
      invariant 2 + i <= |ints|
      invariant read == ints[2..2 + i]
      invariant ids == Elements(read)
    {
      if |input| < pos + 4 {
        assert |ints| < 2 + i + 1;
        return Err(EndOfInput);
      }
      var id := IntOf(input[pos..pos + 4]);
      assert id == ints[2 + i];
      assert ints[2..2 + i + 1] == read + [id];
      ElementsSnoc(read, id);
      ids := ids + {id};
      read := read + [id];
      pos := pos + 4;
      i := i + 1;
    }
    assert i == (if size < 0 then 0 else size);
    return Ok(BackupState(version, ids));
  }

  lemma ElementsSnoc(s: seq<int32>, x: int32)
    ensures Elements(s + [x]) == Elements(s) + {x}
  {
    var r := s + [x];
    forall y | y in Elements(r) ensures y in Elements(s) + {x} {
      var k :| 0 <= k < |r| && r[k] == y;
      if k < |s| {
        assert s[k] == y;
      }
    }
    forall y | y in Elements(s) ensures y in Elements(r) {
      var k :| 0 <= k < |s| && s[k] == y;
      assert r[k] == y;
    }
  }

  /** CallLogBackupAgent.writeState: writes the version and the count, then
      walks the id set in ascending order, writing each id. */
  method WriteState(st: BackupState) returns (out: seq<byte>)
    requires |st.callIds| < 0x8000_0000
    ensures out == SerializeState(st)
  {
    var size: int32 := |st.callIds|;
    out := EncodeInt(st.version) + EncodeInt(size);
    assert [st.version, size][..1] == [st.version];
    var remaining := st.callIds;
    ghost var written: seq<int32> := [];
    while remaining != {}
      invariant written + Ascending(remaining) == Ascending(st.callIds)
      invariant out == EncodeInts([st.version, size] + written)
      decreases |remaining|
    {
      LeastExists(remaining);
      var least :| IsLeast(least, remaining);
      AscendingFront(remaining, least);
      ghost var prefix := [st.version, size] + written;
      assert (prefix + [least])[..|prefix|] == prefix;
      assert prefix + [least] == [st.version, size] + (written + [least]);
      assert written + Ascending(remaining) == (written + [least]) + Ascending(remaining - {least});
      out := out + EncodeInt(least);
      written := written + [least];
      remaining := remaining - {least};
    }
    assert written == Ascending(st.callIds);
  }

  /** Reading back a written version, count and id list gives the version and
      the set of those ids. */
  lemma {:induction false} ParseEncodedState(version: int32, ids: seq<int32>)
    requires |ids| < 0x8000_0000
    ensures ParseState(EncodeInts([version, |ids|] + ids)) == Ok(BackupState(version, Elements(ids)))
  {
    var ints := [version, |ids|] + ids;
    IntsOfEncodeInts(ints);
    assert ints[2..2 + |ids|] == ids;
  }

  /** The blob writeState produces holds the version, the count and the ids in
      ascending order, and nothing else. */
  lemma SerializeStateLayout(st: BackupState)
    requires |st.callIds| < 0x8000_0000
    ensures |SerializeState(st)| == 4 * (2 + |st.callIds|)
    ensures IntsOf(SerializeState(st)) == [st.version, |st.callIds|] + Ascending(st.callIds)
  {
    AscendingListsSet(st.callIds);
    IntsOfEncodeInts([st.version, |st.callIds|] + Ascending(st.callIds));
  }

  /** readState gives back the state writeState wrote. */
  lemma StateRoundTrip(st: BackupState)
    requires |st.callIds| < 0x8000_0000
    ensures ParseState(SerializeState(st)) == Ok(st)
  {
    AscendingListsSet(st.callIds);
    ParseEncodedState(st.version, Ascending(st.callIds));
  }

  /** An input that ends before a whole version int is read means there was
      no previous backup; it is not an error. */
  lemma ReadStateWithoutVersion(input: seq<byte>)
    requires |input| < 4
    ensures ParseState(input) == Ok(BackupState(VERSION_NO_PREVIOUS_STATE, {}))
  {
  }

  /** The suite's readState case with one id. */
  lemma ReadStateOneId()
    ensures ParseState(EncodeInts([1, 1, 101])) == Ok(BackupState(1, {101}))
  {
    assert Elements([101]) == {101} by {
      ElementsSnoc([], 101);
      assert [] + [101] == [101];
      assert Elements([]) == {};
    }
    ParseEncodedState(1, [101]);
    assert [1, |[101]|] + [101] == [1, 1, 101];
  }

  /** The suite's readState case with two ids. */
  lemma ReadStateTwoIds()
    ensures ParseState(EncodeInts([1, 2, 101, 102])) == Ok(BackupState(1, {101, 102}))
  {
    assert Elements([101, 102]) == {101, 102} by {
      ElementsSnoc([], 101);
      assert [] + [101] == [101];
      assert Elements([]) == {};
      ElementsSnoc([101], 102);
      assert [101] + [102] == [101, 102];
    }
    ParseEncodedState(1, [101, 102]);
    assert [1, |[101, 102]|] + [101, 102] == [1, 2, 101, 102];
  }

  /** The suite's writeState case without ids: just the version and a zero count. */
  lemma WriteStateEmpty()
    ensures IntsOf(SerializeState(BackupState(VERSION, {}))) == [VERSION, 0]
  {
    SerializeStateLayout(BackupState(VERSION, {}));
    assert Ascending({}) == [];
  }

  /** The suite's writeState case with ids 101, 102 and 103: a count of three,
      then the ids in ascending order. */
  lemma WriteStateThreeIds(ids: set<int32>)
    requires ids == {101, 102, 103}
    ensures IntsOf(SerializeState(BackupState(VERSION, ids))) == [VERSION, 3, 101, 102, 103]
  {
    ElementsOfThree(ids);
    AscendingUnique(ids, [101, 102, 103]);
    AscendingListsSet(ids);
    SerializeStateLayout(BackupState(VERSION, ids));
  }

  lemma ElementsOfThree(ids: set<int32>)
    requires ids == {101, 102, 103}
    ensures Elements([101, 102, 103]) == ids
  {
    assert Elements([]) == {};
    ElementsSnoc([], 101);
    ElementsSnoc([101], 102);
    ElementsSnoc([101, 102], 103);
    assert [] + [101] == [101] && [101] + [102] == [101, 102] && [101, 102] + [103] == [101, 102, 103];
  }
}
