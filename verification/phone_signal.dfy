/** The phone side of the signal reading: Android's network type and signal
    level mapped to the app's `SignalQuality`/`SignalType`, and the JSON text
    the phone writes to the desktop. */
module PhoneSignal {
  import opened Wrappers
  import opened Decimal
  import Json

  /** `SignalQuality`, with its `quality` property as `Quality`. */
  datatype SignalQuality = NoSignal | OneBar | TwoBars | ThreeBars | FourBars

  function Quality(q: SignalQuality): int {
    match q
    case NoSignal => 0
    case OneBar => 1
    case TwoBars => 2
    case ThreeBars => 3
    case FourBars => 4
  }

  /** `fromQuality`: the lookup in the map from `quality` to case; a missing
      entry makes `!!` throw, modelled as `None`. */
  function FromQuality(n: int): (r: Option<SignalQuality>)
    ensures r.Some? <==> 0 <= n <= 4
    ensures r.Some? ==> Quality(r.value) == n
  {
    if n == 0 then Some(SignalQuality.NoSignal)
    else if n == 1 then Some(OneBar)
    else if n == 2 then Some(TwoBars)
    else if n == 3 then Some(ThreeBars)
    else if n == 4 then Some(FourBars)
    else None
  }

  /** `fromQuality` inverts `quality` on every case. */
  lemma FromQualityInvertsQuality(q: SignalQuality)
    ensures FromQuality(Quality(q)) == Some(q)
  {
  }

  /** `SignalType`, with its `type` property as `WireString`. */
  datatype SignalType = NoSignal | TwoG | Edge | ThreeG | Hsdpa | Lte | FiveG | FiveGPlus

  function WireString(t: SignalType): string {
    match t
    case NoSignal => ""
    case TwoG => "2G"
    case Edge => "E"
    case ThreeG => "3G"
    case Hsdpa => "H"
    case Lte => "LTE"
    case FiveG => "5G"
    case FiveGPlus => "5G+"
  }

  /** The eight wire strings are pairwise distinct, and none needs escaping. */
  lemma WireStringsDistinct(a: SignalType, b: SignalType)
    ensures WireString(a) == WireString(b) ==> a == b
    ensures Json.PlainText(WireString(a))
  {
  }

  // Values of the Android SDK constants the mapping compares against.
  const NETWORK_TYPE_GPRS := 1
  const NETWORK_TYPE_EDGE := 2
  const NETWORK_TYPE_UMTS := 3
  const NETWORK_TYPE_CDMA := 4
  const NETWORK_TYPE_EVDO_0 := 5
  const NETWORK_TYPE_EVDO_A := 6
  const NETWORK_TYPE_1xRTT := 7
  const NETWORK_TYPE_HSDPA := 8
  const NETWORK_TYPE_HSUPA := 9
  const NETWORK_TYPE_HSPA := 10
  const NETWORK_TYPE_IDEN := 11
  const NETWORK_TYPE_EVDO_B := 12
  const NETWORK_TYPE_LTE := 13
  const NETWORK_TYPE_EHRPD := 14
  const NETWORK_TYPE_HSPAP := 15
  const NETWORK_TYPE_NR := 20

  const OVERRIDE_NETWORK_TYPE_NR_NSA := 3
  const OVERRIDE_NETWORK_TYPE_NR_NSA_MMWAVE := 4
  const OVERRIDE_NETWORK_TYPE_NR_ADVANCED := 5

  const VERSION_CODES_R := 30
  const VERSION_CODES_S := 31

  /** The part of `TelephonyDisplayInfo` the mapping reads. */
  datatype DisplayInfo = DisplayInfo(overrideNetworkType: int)

  /** The `when (dataNetworkType)` table; each output is stated by its preimage. */
  function FromNetworkType(dataNetworkType: int): (r: SignalType)
    ensures r == TwoG <==> dataNetworkType in {NETWORK_TYPE_GPRS, NETWORK_TYPE_CDMA, NETWORK_TYPE_1xRTT, NETWORK_TYPE_IDEN}
    ensures r == Edge <==> dataNetworkType == NETWORK_TYPE_EDGE
    ensures r == ThreeG <==> dataNetworkType in {NETWORK_TYPE_UMTS, NETWORK_TYPE_EVDO_0, NETWORK_TYPE_EVDO_A}
    ensures r == Hsdpa <==> dataNetworkType in {NETWORK_TYPE_HSDPA, NETWORK_TYPE_HSUPA, NETWORK_TYPE_HSPA,
                                                 NETWORK_TYPE_EVDO_B, NETWORK_TYPE_EHRPD, NETWORK_TYPE_HSPAP}
    ensures r == Lte <==> dataNetworkType == NETWORK_TYPE_LTE
    ensures r == FiveG <==> dataNetworkType == NETWORK_TYPE_NR
    ensures r != FiveGPlus
    ensures r == SignalType.NoSignal <==> !(1 <= dataNetworkType <= 15 || dataNetworkType == NETWORK_TYPE_NR)
  {
    if dataNetworkType == NETWORK_TYPE_GPRS then TwoG
    else if dataNetworkType == NETWORK_TYPE_EDGE then Edge
    else if dataNetworkType == NETWORK_TYPE_CDMA then TwoG
    else if dataNetworkType == NETWORK_TYPE_1xRTT then TwoG
    else if dataNetworkType == NETWORK_TYPE_IDEN then TwoG
    else if dataNetworkType == NETWORK_TYPE_UMTS then ThreeG
    else if dataNetworkType == NETWORK_TYPE_EVDO_0 then ThreeG
    else if dataNetworkType == NETWORK_TYPE_EVDO_A then ThreeG
    else if dataNetworkType == NETWORK_TYPE_HSDPA then Hsdpa
    else if dataNetworkType == NETWORK_TYPE_HSUPA then Hsdpa
    else if dataNetworkType == NETWORK_TYPE_HSPA then Hsdpa
    else if dataNetworkType == NETWORK_TYPE_EVDO_B then Hsdpa
    else if dataNetworkType == NETWORK_TYPE_EHRPD then Hsdpa
    else if dataNetworkType == NETWORK_TYPE_HSPAP then Hsdpa
    else if dataNetworkType == NETWORK_TYPE_LTE then Lte
    else if dataNetworkType == NETWORK_TYPE_NR then FiveG
    else SignalType.NoSignal
  }

  /** `fromAndroidData`: the display-info overrides first (API level `sdk` at
      least R and display info present), then the network-type table. */
  function FromAndroidData(dataNetworkType: int, sdk: int, displayInfo: Option<DisplayInfo>): (r: SignalType)
    // Without display info, or below API R, only the network type matters.
    ensures sdk < VERSION_CODES_R || displayInfo.None? ==> r == FromNetworkType(dataNetworkType)
    // LTE carrying an NR non-standalone override is shown as 5G.
    ensures (sdk >= VERSION_CODES_R && displayInfo.Some? && dataNetworkType == NETWORK_TYPE_LTE
             && displayInfo.value.overrideNetworkType == OVERRIDE_NETWORK_TYPE_NR_NSA) ==> r == FiveG
    // 5G+ arises only from the mmWave override on exactly API R or the NR-advanced override from API S.
    ensures r == FiveGPlus <==>
              displayInfo.Some? && sdk >= VERSION_CODES_R
              && !(dataNetworkType == NETWORK_TYPE_LTE
                   && displayInfo.value.overrideNetworkType == OVERRIDE_NETWORK_TYPE_NR_NSA)
              && ((sdk == VERSION_CODES_R
                   && displayInfo.value.overrideNetworkType == OVERRIDE_NETWORK_TYPE_NR_NSA_MMWAVE)
                  || (sdk >= VERSION_CODES_S
                      && displayInfo.value.overrideNetworkType == OVERRIDE_NETWORK_TYPE_NR_ADVANCED))
  {
    if sdk >= VERSION_CODES_R && displayInfo.Some? then
      var overrideType := displayInfo.value.overrideNetworkType;
      if dataNetworkType == NETWORK_TYPE_LTE && overrideType == OVERRIDE_NETWORK_TYPE_NR_NSA then FiveG
      else if sdk == VERSION_CODES_R && overrideType == OVERRIDE_NETWORK_TYPE_NR_NSA_MMWAVE then FiveGPlus
      else if sdk >= VERSION_CODES_S && overrideType == OVERRIDE_NETWORK_TYPE_NR_ADVANCED then FiveGPlus
      else FromNetworkType(dataNetworkType)
    else
      FromNetworkType(dataNetworkType)
  }

  /** A reading as sent by the phone. */
  datatype Reading = Reading(quality: SignalQuality, signalType: SignalType)

  /** Why `PhoneSignal.getSignal` throws: reading the network type without
      the phone-state permission (the `SecurityException` is rethrown), a
      null `signalStrength` (`!!`), or a level `fromQuality` does not know. */
  datatype SignalTrap = PermissionMissing | NoSignalStrength | UnknownLevel(level: int)

  /** `PhoneSignal.getSignal` with the telephony queries passed in:
      `dataNetworkType` is `None` when reading it throws, `level` is
      `signalStrength?.level`, `None` when there is no signal strength. */
  function GetSignal(dataNetworkType: Option<int>, level: Option<int>, sdk: int, displayInfo: Option<DisplayInfo>)
    : (r: Result<Reading, SignalTrap>)
    // The network type is read first; without permission nothing else happens.
    ensures dataNetworkType.None? <==> r == Failure(PermissionMissing)
    // Then the signal strength is force-unwrapped, then its level mapped.
    ensures dataNetworkType.Some? && level.None? <==> r == Failure(NoSignalStrength)
    ensures r.Failure? && r.error.UnknownLevel? ==>
              dataNetworkType.Some? && level == Some(r.error.level) && FromQuality(r.error.level).None?
    // A reading exists exactly when both queries answer and the level is 0..4.
    ensures r.Success? <==> dataNetworkType.Some? && level.Some? && 0 <= level.value <= 4
    ensures r.Success? ==> Quality(r.value.quality) == level.value
                           && r.value.signalType == FromAndroidData(dataNetworkType.value, sdk, displayInfo)
  {
    match dataNetworkType
    case None => Failure(PermissionMissing)
    case Some(networkType) =>
      match level
      case None => Failure(NoSignalStrength)
      case Some(l) =>
        match FromQuality(l)
        case None => Failure(UnknownLevel(l))
        case Some(q) => Success(Reading(q, FromAndroidData(networkType, sdk, displayInfo)))
  }

  /** `toJSON`: the hand-written two-member JSON object. */
  function ToJson(r: Reading): (json: string)
    ensures |json| == |"{\"quality\":"| + 1 + |",\"type\":\""| + |WireString(r.signalType)| + |"\"}"|
    ensures json[0] == '{' && json[|json| - 1] == '}'
  {
    "{\"quality\":" + IntToString(Quality(r.quality)) + ",\"type\":\"" + WireString(r.signalType) + "\"}"
  }

  /** What the phone writes on a connection: `println(toJSON())`. */
  function WireMessage(r: Reading): string {
    ToJson(r) + "\n"
  }
}
