/** The per-record payload codec. A payload starts with its format version;
    version 1 carries, in this order: date, duration, number, type,
    numberPresentation, accountComponentName, accountId, accountAddress,
    dataUsage (null written as 0) and features. */
module RecordCodec {
  import opened Wire
  import opened CallLog

  predicate Fits(s: Option<Text>) {
    s.Some? ==> |s.value| <= MAX_UTF_LENGTH
  }

  /** The strings of a version-1 record all fit writeUTF. */
  predicate EncodableV1(c: Call) {
    Fits(c.number) && Fits(c.accountComponentName) && Fits(c.accountId) && Fits(c.accountAddress)
  }

  /** The version-1 payload of a call, as the suite's encoder writes it;
      fails exactly when writeUTF would throw on one of its strings. */
  function EncodeV1(c: Call): (r: Result<seq<byte>>)
    ensures r.Ok? <==> EncodableV1(c)
  {
    var number :- EncodeNullable(c.number);
    var component :- EncodeNullable(c.accountComponentName);
    var account :- EncodeNullable(c.accountId);
    var address :- EncodeNullable(c.accountAddress);
    Ok(EncodeInt(1) + (EncodeLong(c.date) + (EncodeLong(c.duration) + (number +
      (EncodeInt(c.callType) + (EncodeInt(c.numberPresentation) + (component +
      (account + (address + (EncodeLong(c.dataUsage.GetOr(0)) +
      EncodeInt(c.features)))))))))))
  }

  /** What a version-1 record carries of a call: its fields, with a null data
      usage read back as 0; every field the layout omits is at its default. */
  function V1View(c: Call): Call {
    EMPTY_CALL.(date := c.date, duration := c.duration, number := c.number,
                callType := c.callType, numberPresentation := c.numberPresentation,
                accountComponentName := c.accountComponentName, accountId := c.accountId,
                accountAddress := c.accountAddress, dataUsage := Some(c.dataUsage.GetOr(0)),
                features := c.features)
  }

  /** Reads the fields of a version-1 record, after its version. */
  function DecodeV1Fields(s: seq<byte>): Result<Call> {
    var date :- ReadLong(s);
    var duration :- ReadLong(date.rest);
    var number :- ReadNullable(duration.rest);
    var callType :- ReadInt(number.rest);
    var presentation :- ReadInt(callType.rest);
    var component :- ReadNullable(presentation.rest);
    var account :- ReadNullable(component.rest);
    var address :- ReadNullable(account.rest);
    var dataUsage :- ReadLong(address.rest);
    var features :- ReadInt(dataUsage.rest);
    Ok(EMPTY_CALL.(date := date.value, duration := duration.value, number := number.value,
                   callType := callType.value, numberPresentation := presentation.value,
                   accountComponentName := component.value, accountId := account.value,
                   accountAddress := address.value, dataUsage := Some(dataUsage.value),
                   features := features.value))
  }

  /** Decodes one entity payload. A version above VERSION is refused, since its
      layout is unknown; version 1 is decoded; the layouts of the versions in
      between are not part of this model. */
  function DecodeRecord(payload: seq<byte>): (r: Result<Call>)
    ensures |payload| < 4 ==> r == Err(EndOfInput)
    ensures |payload| >= 4 && IntOf(payload[..4]) > VERSION ==> r == Err(FutureVersion(IntOf(payload[..4])))
    ensures r.Ok? ==> |payload| >= 4 && IntOf(payload[..4]) == 1
  {
    var version :- ReadInt(payload);
    if version.value > VERSION then Err(FutureVersion(version.value))
    else if version.value != 1 then Err(UnknownLayout(version.value))
    else DecodeV1Fields(version.rest)
  }

  /** Decoding a version-1 payload gives back everything the layout carries. */
  lemma RecordRoundTrip(c: Call)
    requires EncodableV1(c)
    ensures DecodeRecord(EncodeV1(c).value) == Ok(V1View(c))
  {
    var number := EncodeNullable(c.number).value;
    var component := EncodeNullable(c.accountComponentName).value;
    var account := EncodeNullable(c.accountId).value;
    var address := EncodeNullable(c.accountAddress).value;
    var s10 := EncodeInt(c.features);
    var s9 := EncodeLong(c.dataUsage.GetOr(0)) + s10;
    var s8 := address + s9;
    var s7 := account + s8;
    var s6 := component + s7;
    var s5 := EncodeInt(c.numberPresentation) + s6;
    var s4 := EncodeInt(c.callType) + s5;
    var s3 := number + s4;
    var s2 := EncodeLong(c.duration) + s3;
    var s1 := EncodeLong(c.date) + s2;
    assert EncodeV1(c).value == EncodeInt(1) + s1;
    ReadIntOfEncoded(1, s1);
    ReadLongOfEncoded(c.date, s2);
    ReadLongOfEncoded(c.duration, s3);
    ReadNullableOfEncoded(c.number, s4);
    ReadIntOfEncoded(c.callType, s5);
    ReadIntOfEncoded(c.numberPresentation, s6);
    ReadNullableOfEncoded(c.accountComponentName, s7);
    ReadNullableOfEncoded(c.accountId, s8);
    ReadNullableOfEncoded(c.accountAddress, s9);
    ReadLongOfEncoded(c.dataUsage.GetOr(0), s10);
    ReadIntOfEncoded(c.features, []);
    assert s10 + [] == s10;
  }

  /** The version gate: a payload declaring a version above VERSION is refused,
      whatever follows the version. */
  lemma DecodeRejectsFutureVersion(version: int32, rest: seq<byte>)
    requires version > VERSION
    ensures DecodeRecord(EncodeInt(version) + rest) == Err(FutureVersion(version))
  {
    ReadIntOfEncoded(version, rest);
  }

  /** A payload too short to hold its version is refused as truncated. */
  lemma DecodeTruncatedVersion(payload: seq<byte>)
    requires |payload| < 4
    ensures DecodeRecord(payload) == Err(EndOfInput)
  {
  }
}
