/** The phone-account migration applied when a call is read from the call log
    cursor (CallLogBackupAgent.readCallFromCursor): a call placed through the
    telephony connection service names its account by subscription id; when
    the subscription map knows that id, the account id is rewritten to the
    subscription's ICC id and the call is marked as pending migration. */
module Migration {
  import opened Wire
  import opened CallLog
  import opened Decimal

  /** The component name of the telephony connection service. */
  const TELEPHONY_COMPONENT: Text :=
    Ascii("com.android.phone/com.android.services.telephony.TelephonyConnectionService")

  /** The subscription the row's account id names, when the row belongs to the
      telephony service, its account id is a decimal int and the map knows it. */
  function MappedSubscription(row: Call, subscriptions: map<int32, Text>): (r: Option<int32>)
    ensures r.Some? ==> r.value in subscriptions
    ensures r.Some? ==> row.accountComponentName == Some(TELEPHONY_COMPONENT)
    ensures r.Some? ==> row.accountId.Some? && ParseInt(row.accountId.value) == r
    ensures row.accountComponentName == Some(TELEPHONY_COMPONENT) && row.accountId.Some? &&
            ParseInt(row.accountId.value).Some? && ParseInt(row.accountId.value).value in subscriptions
            ==> r == ParseInt(row.accountId.value)
  {
    if row.accountComponentName != Some(TELEPHONY_COMPONENT) || row.accountId.None? then None
    else
      match ParseInt(row.accountId.value)
      case None => None
      case Some(subId) => if subId in subscriptions then Some(subId) else None
  }

  /** readCallFromCursor: the call as its columns hold it, migrated when its
      subscription is known; a null column is carried as None and never makes
      the read fail. */
  function ReadCallFromCursor(row: Call, subscriptions: map<int32, Text>): (c: Call)
    ensures c.(accountId := row.accountId,
               isPhoneAccountMigrationPending := row.isPhoneAccountMigrationPending) == row
    ensures MappedSubscription(row, subscriptions).None? ==> c == row
    ensures MappedSubscription(row, subscriptions).Some? ==>
              c == row.(accountId := Some(subscriptions[MappedSubscription(row, subscriptions).value]),
                        isPhoneAccountMigrationPending := 1)
  {
    match MappedSubscription(row, subscriptions)
    case Some(subId) =>
      row.(accountId := Some(subscriptions[subId]), isPhoneAccountMigrationPending := 1)
    case None => row
  }

  /** A telephony call whose account id parses (in any spelling
      Integer.parseInt accepts) to a known subscription id gets the
      subscription's ICC id and is marked pending. */
  lemma MigrationRewrites(row: Call, subscriptions: map<int32, Text>, subId: int32)
    requires row.accountComponentName == Some(TELEPHONY_COMPONENT)
    requires row.accountId.Some? && ParseInt(row.accountId.value) == Some(subId)
    requires subId in subscriptions
    ensures ReadCallFromCursor(row, subscriptions).accountId == Some(subscriptions[subId])
    ensures ReadCallFromCursor(row, subscriptions).isPhoneAccountMigrationPending == 1
  {
  }

  /** In particular, an account id written as String.valueOf(subId). */
  lemma MigrationRewritesDecimal(row: Call, subscriptions: map<int32, Text>, subId: int32)
    requires row.accountComponentName == Some(TELEPHONY_COMPONENT)
    requires row.accountId == Some(DecimalString(subId))
    requires subId in subscriptions
    ensures ReadCallFromCursor(row, subscriptions).accountId == Some(subscriptions[subId])
    ensures ReadCallFromCursor(row, subscriptions).isPhoneAccountMigrationPending == 1
  {
    ParseIntOfDecimalString(subId);
    MigrationRewrites(row, subscriptions, subId);
  }

  /** A row whose component is not the telephony service, or whose component
      or account id is null, is read as it is. */
  lemma MigrationLeavesOthers(row: Call, subscriptions: map<int32, Text>)
    requires row.accountComponentName != Some(TELEPHONY_COMPONENT) || row.accountId.None?
    ensures ReadCallFromCursor(row, subscriptions) == row
  {
  }

  /** The cursor row the suite mocks: call 9, account id "666" under the given
      component, every string column set unless it is the nulled one. */
  function MockRow(component: Option<Text>, accountId: Option<Text>): Call {
    Call(9, 20991231, 987654321, Some(Ascii("6316056461")), Some(Ascii("54321")),
         Some(Ascii("via_number")), 2, 1, component, accountId,
         Some(Ascii("CALL_ACCOUNT_ADDRESS")), Some(987654321), 777, 1, 0,
         Some(Ascii("CALL_CALL_SCREENING_APP_NAME")), Some(Ascii("CALL_CALL_SCREENING_COMPONENT_NAME")),
         Some(Ascii("CALL_MISSED_REASON")), 0)
  }

  /** The suite's migration case: with sub id 666 mapped to an ICC id, the
      telephony row gets that ICC id and pending 1; a row of another component
      keeps "666" and pending 0. */
  lemma MigrationExample()
    ensures var subscriptions := map[666 := Ascii("891004234814455936F")];
            var telephony := ReadCallFromCursor(MockRow(Some(TELEPHONY_COMPONENT), Some(Ascii("666"))), subscriptions);
            var other := ReadCallFromCursor(MockRow(Some(Ascii("NON_TELEPHONY_COMPONENT_NAME")), Some(Ascii("666"))), subscriptions);
            && telephony.accountId == Some(Ascii("891004234814455936F"))
            && telephony.isPhoneAccountMigrationPending == 1
            && other.accountId == Some(Ascii("666"))
            && other.isPhoneAccountMigrationPending == 0
  {
    var subscriptions := map[666 := Ascii("891004234814455936F")];
    assert Ascii("666") == DecimalString(666) by {
      assert Digits(666) == Digits(66) + [ZERO + 6];
      assert Digits(66) == Digits(6) + [ZERO + 6];
    }
    MigrationRewritesDecimal(MockRow(Some(TELEPHONY_COMPONENT), Some(Ascii("666"))), subscriptions, 666);
    assert |Ascii("NON_TELEPHONY_COMPONENT_NAME")| != |TELEPHONY_COMPONENT|;
  }
}
