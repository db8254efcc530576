/** The agent's data model: one call log entry, the backup entity that carries
    it, and the protocol's version constants. */
module CallLog {
  import opened Wire

  /** CallLogBackupAgent.VERSION, the newest record format the agent writes and
      reads. The suite does not give its value. The lemmas need only that a
      version-1 record is accepted (VERSION >= 1); the suite's scenario also
      has a version-10000 record refused. */
  const VERSION: int32 := 1010

  /** CallLogBackupAgent.VERSION_NO_PREVIOUS_STATE: the state version reported
      when there is no earlier backup. The suite does not give its value
      either. */
  const VERSION_NO_PREVIOUS_STATE: int32 := 0

  /** CallLogBackupAgent.Call. A null String is None; dataUsage is a nullable Long. */
  datatype Call = Call(
    id: int32,
    date: int64,
    duration: int64,
    number: Option<Text>,
    postDialDigits: Option<Text>,
    viaNumber: Option<Text>,
    callType: int32,
    numberPresentation: int32,
    accountComponentName: Option<Text>,
    accountId: Option<Text>,
    accountAddress: Option<Text>,
    dataUsage: Option<int64>,
    features: int32,
    addForAllUsers: int32,
    blockReason: int32,
    callScreeningAppName: Option<Text>,
    callScreeningComponentName: Option<Text>,
    missedReason: Option<Text>,
    isPhoneAccountMigrationPending: int32)

  /** `new Call()`: every field at its Java default. */
  const EMPTY_CALL := Call(0, 0, 0, None, None, None, 0, 0, None, None, None,
                           None, 0, 0, 0, None, None, None, 0)

  /** The suite's makeCall helper. */
  function MakeCall(id: int32, date: int64, duration: int64, number: Text): (c: Call)
    ensures c.id == id && c.date == date && c.duration == duration && c.number == Some(number)
    ensures c.accountComponentName == Some(Ascii("account-component"))
    ensures c.accountId == Some(Ascii("account-id"))
    ensures c.(id := 0, date := 0, duration := 0, number := None,
               accountComponentName := None, accountId := None) == EMPTY_CALL
  {
    EMPTY_CALL.(id := id, date := date, duration := duration, number := Some(number),
                accountComponentName := Some(Ascii("account-component")),
                accountId := Some(Ascii("account-id")))
  }

  /** One backup entity: a key and an opaque payload. */
  datatype Entity = Entity(key: Text, data: seq<byte>)
}
