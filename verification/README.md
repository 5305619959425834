# Hotspot Menubar: a Dafny model of the tethering helper's core

Hotspot Menubar shows an Android phone's cellular signal in the macOS menu bar while the Mac
is tethered to the phone's hotspot, and it counts the bytes that go through each tethering
session. The Android app reads the phone's signal and sends it as a small JSON object. The
desktop app finds the phone over Bonjour, fetches and decodes that object, and, on every
background iteration, updates a byte-counting session tracker. A data-usage window folds the
stored sessions into per-day totals per month and lets the user step between months that
have data.

This project models that logic as immutable records and pure transition functions:

- **Session accounting** (`SessionTracker`, `LegacySessionTracker`, `ByteCounter`,
  `TrackerVersions`). `trackSession` is a four-branch state machine over the session flag,
  the last 32-bit counter sample and the 64-bit running total. Both the current version and
  the older one are modelled. The counter read (`getifaddrs`) becomes an `Option<Counters>`
  parameter.
- **Signal on the phone** (`PhoneSignal`): `fromQuality`, the `SignalType` wire strings,
  `fromAndroidData` with the 5G display-info overrides, `getSignal` with the telephony
  queries passed in, and the hand-written `toJSON`.
- **Signal on the desktop** (`DesktopSignal`, `LegacySignal`, `ServiceResponse`, `Json`,
  `Wire`). These are the raw-value enumerations of both desktop targets and
  `decodeServiceResponse`. That function needs a JSON reader, so `Json` is one for the
  objects the phone sends. `Wire` proves that what the phone writes, the desktop decodes to
  the same reading.
- **Pairing and connector state** (`Pairing`, `AndroidConnector`, `BackgroundLoop`). The
  connector's Bonjour and connection callbacks are events on a `Connector` record, and
  `getSignal` is pair-then-fetch over those events. One background iteration is `getSignal`
  followed by `trackSession`.
- **Hotspot address heuristic** (`Hotspot`): `isIPv4`, the address collection over the
  network interfaces, and the unique-candidate choice of `getHotspotIPv4Address`.
- **Data-usage window** (`Dates`, `DataUsage`, `DataUsageWindow`):
  - the Gregorian date helpers, the month key and `clamp`;
  - the per-day fold `aggregateDataUsageByMonthAndDay`, proved equal to an independent
    per-day sum over every session except the oldest, which the code drops; a corrected fold
    is proved equal to the sum over all sessions;
  - the monthly total, the month and year lists, and the next/previous month search.
- **Pairing animation** (`PairingProgress`): the `animationTick` counter.

Each modelled operation that can crash in the source returns its crash as a `Failure` or
`None` value, never as a precondition. This covers the `try!`, force unwraps (`!`, `!!`),
arithmetic overflows and reversed `ClosedRange` bounds of the operations above. So each such
operation says which of its inputs crash it. The few unwraps of values the model takes as
always present are listed under "## Left out". Helper modules: `Wrappers` (`Option`,
`Result`), `BoundedInts` (the `UInt32`/`UInt64`/`Int64` ranges) and `Decimal` (the decimal
rendering of integers used by string interpolation, with its inverse).

The source disagrees with its obvious intent in three places:
- The byte-counter wrap-around difference is one less than the modular difference.
- The data-usage fold drops the oldest stored session's bytes. When that session is alone in
  its month, the whole month is missing.
- The data-usage fold crashes when exactly one session is stored.

The model follows the code as written, and proves the evidently intended version next to it;
see "## Findings".

## Model

| member | source | states |
|---|---|---|
| ByteCounter.Difference | macOS/TetheringHelper/Swift/SessionTracker.swift:78-85 | Without wrap-around the difference is exactly `now - past`, so a repeated sample gives 0. On wrap-around it is one less than `(now - past) mod 2^32`, and it never leaves the UInt32 range. |
| ByteCounter.ModularDifference | macOS/TetheringHelper/Swift/SessionTracker.swift:78-85 | The intended delta: the unique 32-bit step count that advances the counter from `past` to `now` modulo 2^32. |
| ByteCounter.DifferenceVersusModular | TetheringHelper/SessionTracker.swift:69-76 | The code agrees with the modular delta without wrap-around and falls short of it by exactly one with wrap-around. The same function appears in both versions of the tracker. |
| ByteCounter.WrapByOneIsLost | macOS/TetheringHelper/Swift/SessionTracker.swift:79-81 | The counter going from UInt32.max to 0 counts 0 bytes, where the true delta is 1. |
| SessionTracker.TrackSession | macOS/TetheringHelper/Swift/SessionTracker.swift:35-76 | Each case of the state machine: <br>• Paired without an interface name, or unpaired with no session: nothing changes. <br>• Unpaired with a session: reset to the initial values. <br>• A sampling failure traps exactly when paired with an interface. <br>• The opening tick makes the sample the baseline, keeps the total and starts a record with the phone's name at 0 bytes. <br>• An accumulating tick adds both differences, moves the baseline, never lowers the total, and gives the record and the delegate the new total. <br>• It traps exactly on a UInt64 overflow, or on an Int64 conversion overflow when a record exists. |
| SessionTracker.TrackSessionKeepsConsistent | macOS/TetheringHelper/Swift/SessionTracker.swift:21-24 | The initial values satisfy the invariant: with no session active, the total is 0, the baseline is (0,0) and there is no record; with one active, the record holds the running total. Every tick that does not trap preserves it. |
| SessionTracker.RunKeepsConsistent | macOS/TetheringHelper/Swift/SessionTracker.swift:35-76 | The invariant holds after any sequence of ticks that does not trap. |
| SessionTracker.SessionCountsSampleDifferences | macOS/TetheringHelper/Swift/SessionTracker.swift:44-68 | A session opened from an idle tracker and fed samples counts exactly the sum of the differences between successive samples, ends with the last sample as its baseline, and its record holds the same total. |
| SessionTracker.AccumulatingTick | macOS/TetheringHelper/Swift/SessionTracker.swift:52-68 | One accumulating tick on an active tracker whose record holds the running total adds that tick's differences to both the total and the record. |
| SessionTracker.RunSplit | macOS/TetheringHelper/Swift/SessionTracker.swift:35-76 | Running a sequence of ticks and then one more is the same as the run's result followed by that one tick. |
| SessionTracker.SeventyBytesSession | macOS/TetheringHelper/Swift/SessionTracker.swift:44-75 | Worked example: samples (100,100) and then (150,120) make a 70-byte session, and the next unpaired tick restores the initial state. |
| LegacySessionTracker.TrackSession | TetheringHelper/SessionTracker.swift:35-67 | The older tracker: <br>• Paired without an interface: no change. <br>• Unpaired: reset if a session was active, otherwise no change. <br>• A sampling failure traps exactly when paired with an interface. <br>• Opening sets the flag and the baseline without touching the total. <br>• Accumulating adds both differences in UInt64, replaces the baseline and traps exactly on overflow. |
| LegacySessionTracker.UnpairedLeavesIdle | TetheringHelper/SessionTracker.swift:61-66 | An unpaired tick never traps. It leaves an idle tracker idle (flag off, total 0, baseline (0,0)) and makes an active one idle. |
| TrackerVersions.SameAccounting | TetheringHelper/SessionTracker.swift:35-67 | Whenever the current tracker completes a tick, the older tracker completes the same tick with the same total, flag and baseline. Persistence is the only difference between them. |
| Pairing.IsPaired | TetheringHelper/PairingStatus.swift:15-22 | True exactly for the paired case, whatever the name. |
| Pairing.PhoneName | macOS/TetheringHelper/Swift/SessionTracker.swift:50 | The `phoneName` accessor, defined in the macOS target's `PairingStatus.swift` and force-unwrapped when a session opens: a name exists exactly when paired, and it is the paired case's name. |
| Pairing.IsPairedIgnoresName | TetheringHelper/PairingStatus.swift:15-22 | `isPaired` is true for every phone name and false for `unpaired`. |
| DesktopSignal.QualityFromRawValue | macOS/TetheringHelper/AndroidConnector.swift:113 | `SignalQuality(rawValue:)`, over the enumeration with raw values 0..4, succeeds exactly for 0..4, with the case whose raw value is the input. |
| DesktopSignal.QualityRawValueRoundTrip | macOS/TetheringHelper/AndroidConnector.swift:113 | Every quality's raw value maps back to it and lies below the case count. |
| DesktopSignal.FromRawValue | macOS/TetheringHelper/Swift/model/SignalType.swift:11-20 | `SignalType(rawValue:)` succeeds exactly for the eight raw strings, with the case that has that raw string. |
| DesktopSignal.RawValueRoundTrip | macOS/TetheringHelper/Swift/model/SignalType.swift:11-20 | Every case's raw string maps back to it, and no two cases share a raw string. |
| DesktopSignal.LowerCaseIsRejected | macOS/TetheringHelper/Swift/model/SignalType.swift:11 | Lower-case spellings such as "lte", "3g" and "5g+" are rejected. |
| LegacySignal.FromRawValue | TetheringHelper/SignalType.swift:12-20 | The seven-case enumeration accepts exactly its seven raw strings, each giving the case with that raw string. |
| LegacySignal.AllCasesComplete | TetheringHelper/SignalType.swift:12-20 | `allCases` contains every case, in declaration order, with no repeats, and every raw value round-trips. |
| LegacySignal.NoFiveGPlus | TetheringHelper/SignalType.swift:12-20 | "5G+" is not a raw value of the older enumeration, and it has seven cases. |
| PhoneSignal.FromQuality | Android/app/src/main/java/com/gmail/bittner/johannes/tetheringhelper/service/PhoneSignal.kt:24-25 | A quality comes back exactly for 0..4, and it is the one whose `quality` is the input. Otherwise the missing map entry is `None`. |
| PhoneSignal.FromQualityInvertsQuality | Android/app/src/main/java/com/gmail/bittner/johannes/tetheringhelper/service/PhoneSignal.kt:10-25 | `fromQuality(q.quality) == q` for every quality. |
| PhoneSignal.WireStringsDistinct | Android/app/src/main/java/com/gmail/bittner/johannes/tetheringhelper/service/PhoneSignal.kt:29-37 | The eight wire strings are pairwise distinct, and none needs escaping inside a JSON string (section 7 of RFC 8259). |
| PhoneSignal.FromNetworkType | Android/app/src/main/java/com/gmail/bittner/johannes/tetheringhelper/service/PhoneSignal.kt:72-90 | For each signal type, exactly which network types the table maps to it. Unlisted types map to no signal, and the table never yields 5G+. |
| PhoneSignal.FromAndroidData | Android/app/src/main/java/com/gmail/bittner/johannes/tetheringhelper/service/PhoneSignal.kt:40-91 | Below API R or without display info, only the table applies. LTE with the NR non-standalone override is 5G. The result is 5G+ exactly when the mmWave override comes on API R exactly, or the NR-advanced override on API S or later. |
| PhoneSignal.GetSignal | Android/app/src/main/java/com/gmail/bittner/johannes/tetheringhelper/service/PhoneSignal.kt:97-115 | In source order: <br>• Reading the network type without permission fails, with the `SecurityException` rethrown. <br>• Then a null signal strength fails at `!!`. <br>• Then a level outside 0..4 fails in `fromQuality`. <br>• A reading exists exactly when neither query fails and the level is 0..4. Its quality is the level and its type is `fromAndroidData` of the same inputs. |
| Wire.WireStringsAreRawValues | macOS/TetheringHelper/Swift/model/SignalType.swift:11-20 | The set of phone wire strings equals the set of desktop raw strings. |
| Wire.ToJsonIsObject | Android/app/src/main/java/com/gmail/bittner/johannes/tetheringhelper/service/PhoneSignal.kt:118-120 | Read as JSON, `toJSON`'s text is an object with exactly two members, in order: `quality`, the quality's number, and `type`, the type's wire string. |
| Wire.DecodeMessage | macOS/TetheringHelper/AndroidConnector.swift:110-115 | Any such object, for any Int64 quality and any escape-free type string, decodes to exactly those two fields, followed by any whitespace. The response is then the quality and type with those raw values, or the matching decode failure. |
| Wire.WireRoundTrip | Android/app/src/main/java/com/gmail/bittner/johannes/tetheringhelper/service/SignalSender.kt:101 | Every line the phone writes decodes on the desktop, with the same quality number and type string the phone encoded. |
| Wire.QualityOutOfRangeRejected | macOS/TetheringHelper/AndroidConnector.swift:113 | Qualities 5 and -1 fail at the quality raw-value unwrap. |
| Wire.LowerCaseTypeRejected | macOS/TetheringHelper/AndroidConnector.swift:114 | A valid quality with type "3g" fails at the type raw-value unwrap. |
| Wire.MissingTypeRejected | macOS/TetheringHelper/AndroidConnector.swift:110-112 | An object with only a `quality` member fails at the JSON decode. |
| Wire.QualityOnly | macOS/TetheringHelper/AndroidConnector.swift:110-112 | That object reads as the single `quality` member. |
| Wire.MissingMemberIsMalformed | macOS/TetheringHelper/AndroidConnector.swift:31-35 | Any object without a `type` member is rejected as malformed. |
| Wire.NonObjectRejected | macOS/TetheringHelper/AndroidConnector.swift:110-112 | Text that does not begin with whitespace or `{` is rejected as malformed. |
| ServiceResponse.DecodeFields | macOS/TetheringHelper/AndroidConnector.swift:31-35 | Fields come out exactly when the text is an object whose `quality` is a number and whose `type` is a string. They are those members' values. |
| ServiceResponse.Decode | macOS/TetheringHelper/AndroidConnector.swift:110-115 | Malformed exactly when the fields are missing. Success exactly when both raw values are known, and the response's raw values are then the decoded fields. An out-of-range failure carries a quality outside 0..4; an unknown-type failure carries a string outside the raw values. |
| Json.SkipWhitespace | macOS/TetheringHelper/AndroidConnector.swift:112 | The result is a suffix that starts with no whitespace. |
| Json.ParseString | macOS/TetheringHelper/AndroidConnector.swift:112 | A parsed string is escape-free and strictly shortens the input. |
| Json.Lookup | macOS/TetheringHelper/AndroidConnector.swift:112 | A found value is that of a member with the key. `None` means no member has the key. |
| Json.ParseQuoted | Android/app/src/main/java/com/gmail/bittner/johannes/tetheringhelper/service/PhoneSignal.kt:118-120 | An escape-free string in quotes parses back to itself, leaving the rest. |
| Json.ParseRenderedInt | Android/app/src/main/java/com/gmail/bittner/johannes/tetheringhelper/service/PhoneSignal.kt:118-120 | Every Int64 rendered in decimal parses back to itself when followed by a delimiter. |
| Json.TwoMemberObject | Android/app/src/main/java/com/gmail/bittner/johannes/tetheringhelper/service/PhoneSignal.kt:118-120 | An object with one integer member and one string member, followed by whitespace, parses to exactly those two members. |
| Json.OneMemberObject | macOS/TetheringHelper/AndroidConnector.swift:112 | An object with a single integer member parses to exactly that member. |
| Decimal.ParseNatToString | Android/app/src/main/java/com/gmail/bittner/johannes/tetheringhelper/service/PhoneSignal.kt:119 | Reading the decimal rendering of a number gives the number back. |
| Decimal.IntToStringInjective | macOS/TetheringHelper/Swift/extensions/Date+Components.swift:30-32 | Distinct integers have distinct decimal renderings. |
| AndroidConnector.Status | macOS/TetheringHelper/AndroidConnector.swift:20-28 | Paired exactly when a resolved service is stored, named after that service. |
| AndroidConnector.ResetState | macOS/TetheringHelper/AndroidConnector.swift:103-108 | Quality and type become no signal, the interface name and the resolved service are cleared (so the status is unpaired), and the browse result is kept. |
| AndroidConnector.Pair | macOS/TetheringHelper/AndroidConnector.swift:132-142 | Afterwards the status is unpaired, and the signal and interface fields are unchanged. |
| AndroidConnector.Handle | macOS/TetheringHelper/AndroidConnector.swift:57-94 | The effect of each callback: <br>• A found service is remembered. <br>• A resolve makes the status paired with the sender's name. <br>• Ready records the connection's interface name, and traps exactly when that interface is unknown (the force unwraps of `getInterfaceName`). <br>• Waiting (refused) resets the state; other states change nothing. <br>• A message with an error or still incomplete changes nothing; otherwise it is decoded into quality and type, or traps. |
| AndroidConnector.HandleAll | macOS/TetheringHelper/AndroidConnector.swift:68-94 | Callbacks are applied in order until the first trap. A trap comes only from a ready connection without an interface or from a received message, never from the fetch's host or port. A run of callbacks that cannot trap always completes. |
| AndroidConnector.DiscoveryKeepsSignal | macOS/TetheringHelper/AndroidConnector.swift:145-157 | Discovery callbacks never trap and leave the quality, type and interface name unchanged. |
| AndroidConnector.Fetch | macOS/TetheringHelper/AndroidConnector.swift:62-101 | A resolved service without a host name traps at the force unwrap. One whose port does not fit a 16-bit `NWEndpoint.Port` traps at the conversion next. Otherwise the connection's callbacks are applied and the outcome is marked fetched. |
| AndroidConnector.InterfaceUnknownTraps | macOS/TetheringHelper/AndroidConnector.swift:57-73 | A paired fetch whose connection becomes ready without a known interface crashes before any message is read. |
| AndroidConnector.GetSignal | macOS/TetheringHelper/AndroidConnector.swift:47-55 | When paired, it fetches directly. Otherwise it pairs and fetches only if the status is paired afterwards. Every unfetched outcome is unpaired. |
| AndroidConnector.UnpairedSkipsFetch | macOS/TetheringHelper/AndroidConnector.swift:47-55 | If no service resolves while waiting, nothing is fetched, the status stays unpaired, and quality and type are unchanged. |
| AndroidConnector.FoundKeepsUnpaired | macOS/TetheringHelper/AndroidConnector.swift:145-152 | Finding services without resolving them never pairs. |
| AndroidConnector.PairAndFetch | macOS/TetheringHelper/AndroidConnector.swift:47-115 | From unpaired, find + resolve + ready + one complete message ends paired with the phone's name, the connection's interface name, and the decoded quality and type. |
| AndroidConnector.RefusedConnectionUnpairs | macOS/TetheringHelper/AndroidConnector.swift:68-81 | A paired fetch whose connection is refused ends in the reset state, unpaired. |
| BackgroundLoop.Iteration | macOS/TetheringHelper/Swift/AppDelegate.swift:52-68 | A connector trap ends the iteration first. Otherwise the tracker is driven by exactly the status and interface name that `getSignal` left. |
| BackgroundLoop.IterationKeepsConsistent | macOS/TetheringHelper/Swift/AppDelegate.swift:52-68 | The tracker's invariant survives every iteration that does not trap. |
| BackgroundLoop.RefusalEndsSession | macOS/TetheringHelper/Swift/AppDelegate.swift:52-68 | When the phone refuses the connection during a session, the connector resets and the session closes in the same iteration. |
| Hotspot.IsIPv4MatchesPattern | Android/app/src/main/java/com/gmail/bittner/johannes/tetheringhelper/service/HotspotInterfaceIPv4.kt:44-46 | The check accepts exactly the strings of the form g.g.g.g, each g being 1 to 3 decimal digits. |
| Hotspot.QuadAccepted | Android/app/src/main/java/com/gmail/bittner/johannes/tetheringhelper/service/HotspotInterfaceIPv4.kt:44-46 | Any four such groups joined by dots are accepted. |
| Hotspot.TypicalHotspotAddress | Android/app/src/main/java/com/gmail/bittner/johannes/tetheringhelper/service/HotspotInterfaceIPv4.kt:44-46 | "192.168.43.1", the usual Android hotspot address, matches the pattern. |
| Hotspot.NoRangeCheck | Android/app/src/main/java/com/gmail/bittner/johannes/tetheringhelper/service/HotspotInterfaceIPv4.kt:44-46 | "999.999.999.999" is accepted: groups are not checked against 255. |
| Hotspot.ThreeGroupsRejected | Android/app/src/main/java/com/gmail/bittner/johannes/tetheringhelper/service/HotspotInterfaceIPv4.kt:44-46 | Three groups are rejected. |
| Hotspot.LongGroupRejected | Android/app/src/main/java/com/gmail/bittner/johannes/tetheringhelper/service/HotspotInterfaceIPv4.kt:44-46 | A four-digit group is rejected. |
| Hotspot.InterfaceAddressesMembers | Android/app/src/main/java/com/gmail/bittner/johannes/tetheringhelper/service/HotspotInterfaceIPv4.kt:56-62 | An interface contributes exactly its non-null host addresses that pass the IPv4 check. |
| Hotspot.AllAddressesMembers | Android/app/src/main/java/com/gmail/bittner/johannes/tetheringhelper/service/HotspotInterfaceIPv4.kt:54-63 | An address is collected exactly when some interface reports it and it passes the IPv4 check. |
| Hotspot.CollectIPv4 | Android/app/src/main/java/com/gmail/bittner/johannes/tetheringhelper/service/HotspotInterfaceIPv4.kt:48-65 | A null enumeration gives no addresses. Otherwise the loop gathers, in enumeration order, exactly the reference collection, and every element is IPv4. |
| Hotspot.Candidates | Android/app/src/main/java/com/gmail/bittner/johannes/tetheringhelper/service/HotspotInterfaceIPv4.kt:32-34 | The candidates are an order-preserving subsequence of the addresses. Each address appears as often as in the input if it starts with "192" and differs from the Wi-Fi address, and not at all otherwise. |
| Hotspot.HotspotAddress | Android/app/src/main/java/com/gmail/bittner/johannes/tetheringhelper/service/HotspotInterfaceIPv4.kt:32-41 | An address is returned exactly when there is one candidate. It is an input address, a candidate, occurs once in the input, and is the only candidate. |
| Hotspot.SoleCandidate | Android/app/src/main/java/com/gmail/bittner/johannes/tetheringhelper/service/HotspotInterfaceIPv4.kt:37-41 | With exactly one candidate, no other address qualifies. |
| Hotspot.NoWifiOnlyPrefix | Android/app/src/main/java/com/gmail/bittner/johannes/tetheringhelper/service/HotspotInterfaceIPv4.kt:32-34 | With no Wi-Fi address, the candidates are exactly the addresses starting with "192". |
| Hotspot.Examples | Android/app/src/main/java/com/gmail/bittner/johannes/tetheringhelper/service/HotspotInterfaceIPv4.kt:32-41 | Worked examples: a sole 192 address is chosen, the Wi-Fi address is excluded, two 192 addresses give nothing, and non-192 addresses give nothing. |
| Hotspot.GetHotspotIPv4Address | Android/app/src/main/java/com/gmail/bittner/johannes/tetheringhelper/service/HotspotInterfaceIPv4.kt:22-42 | The result is the unique-candidate choice over the collected addresses. Any result is IPv4, starts with "192" and is not the Wi-Fi address. |
| Dates.DaysInMonth | macOS/TetheringHelper/Swift/extensions/Date+Components.swift:34-38 | 28 to 31 days; February has 29 exactly in leap years; every other month has at least 30. |
| Dates.YearLength | macOS/TetheringHelper/Swift/extensions/Date+Components.swift:34-38 | In the day numbering, a year spans 366 days if it is a Gregorian leap year and 365 otherwise. |
| Dates.DaysInMonthIsInterval | macOS/TetheringHelper/Swift/extensions/Date+Components.swift:34-38 | The month length is the number of days from the month's first day to the next month's first day, December included. |
| Dates.MonthKeyInjective | macOS/TetheringHelper/Swift/extensions/Date+Components.swift:30-32 | Two "year-month" keys are equal exactly when both the years and the months are equal, negative years included. |
| Dates.YearMonthKeyOneToOne | macOS/TetheringHelper/Swift/windows/DataUsageWindow/DataUsageViewController.swift:130 | Two dates share a `yearMonthKey` exactly when they share year and month. So keys built from year and month, and keys taken from dates, find the same entries. |
| Dates.KeyExample | macOS/TetheringHelper/Swift/extensions/Date+Components.swift:30-32 | July 2021 is keyed "2021-7" (month unpadded) and December "2021-12". |
| Dates.IndexRoundTrip | macOS/TetheringHelper/Swift/extensions/Date+Components.swift:17-27 | The running month count maps back to the year and month it came from. |
| Dates.FromYearAndMonth | macOS/TetheringHelper/Swift/extensions/Date+Components.swift:40-45 | For months 1..12 the result is day 1 at 12:00 of that year and month. Any month normalises into the right year. |
| Dates.KeyOfFromYearAndMonth | macOS/TetheringHelper/Swift/extensions/Date+Components.swift:40-45 | The key of `fromYearAndMonth(y, m)` is the hand-built key for `y` and `m`. |
| Dates.AddMonths | macOS/TetheringHelper/Swift/windows/DataUsageWindow/DataUsageViewController.swift:111 | Adding months moves the month count by exactly that much, keeps the time of day, and keeps the day unless the target month is shorter (then its last day). |
| Dates.AddMonthsLosesDay | macOS/TetheringHelper/Swift/windows/DataUsageWindow/DataUsageViewController.swift:111 | 31 January plus one month minus one month is 28 January. |
| Dates.Clamp | macOS/TetheringHelper/Date+clamp.swift:14-16 | The result is never after `until`. With `from <= until` it lies in the interval. A date already inside is returned unchanged. With `from > until` the result is `until`. |
| Dates.ClampIdempotent | macOS/TetheringHelper/Date+clamp.swift:15 | Clamping twice equals clamping once. |
| DataUsage.Zeros | macOS/TetheringHelper/Swift/windows/DataUsageWindow/DataUsageViewController.swift:197-198 | The zero-filled month array has the requested length and all entries 0. |
| DataUsage.Write | macOS/TetheringHelper/Swift/windows/DataUsageWindow/DataUsageViewController.swift:196-201 | Writing a day (creating the month's zero array first if needed) keeps every month array exactly as long as its month. |
| DataUsage.Step | macOS/TetheringHelper/Swift/windows/DataUsageWindow/DataUsageViewController.swift:188-204 | One fold step: <br>• On the first session it traps exactly when that session is also the last. <br>• It flushes the day's sum at index day-1 of the previous session's month when the day or month changes or on the last session, then restarts the sum at this session. <br>• Otherwise it only adds, trapping on overflow. |
| DataUsage.Reference | macOS/TetheringHelper/Swift/windows/DataUsageWindow/DataUsageViewController.swift:188-204 | The reference map keeps month arrays as long as their months. |
| DataUsage.ReferenceDay | macOS/TetheringHelper/Swift/windows/DataUsageWindow/DataUsageViewController.swift:188-204 | In the reference map each day's entry is the sum of `bytesTransferred` over the sessions on that day. |
| DataUsage.ReferenceKeys | macOS/TetheringHelper/Swift/windows/DataUsageWindow/DataUsageViewController.swift:196-198 | A month appears in the reference exactly when some counted session lies in it. |
| DataUsage.NewDayIsFresh | macOS/TetheringHelper/Swift/windows/DataUsageWindow/DataUsageViewController.swift:193 | In grouped input, a session that starts a new day shares its day with no earlier session. |
| DataUsage.FoldMatchesReference | macOS/TetheringHelper/Swift/windows/DataUsageWindow/DataUsageViewController.swift:188-204 | From any state satisfying the loop invariant, the rest of the fold succeeds and produces the per-day sums of all sessions but the last. |
| DataUsage.AggregateMatchesReference | macOS/TetheringHelper/Swift/windows/DataUsageWindow/DataUsageViewController.swift:182-210 | For day-grouped input of at least two sessions whose total fits in Int64, aggregation equals the per-day sums of every session but the last. |
| DataUsage.StepKeepsLengths | macOS/TetheringHelper/Swift/windows/DataUsageWindow/DataUsageViewController.swift:197-200 | A step never writes outside its month array, and keeps every array as long as its month. |
| DataUsage.FoldKeepsLengths | macOS/TetheringHelper/Swift/windows/DataUsageWindow/DataUsageViewController.swift:188-204 | The fold never indexes out of range, never unwraps a nil previous key after the first step, and keeps array lengths. |
| DataUsage.AggregateOutcomes | macOS/TetheringHelper/Swift/windows/DataUsageWindow/DataUsageViewController.swift:182-210 | No sessions give an empty map. The nil unwrap traps exactly for a single session. No index is ever out of range. Month arrays are as long as their months. |
| DataUsage.LastSessionLost | macOS/TetheringHelper/Swift/windows/DataUsageWindow/DataUsageViewController.swift:194-204 | Of two sessions on 2 and 1 July 2021, only the newer one's bytes reach the map. |
| DataUsage.FixedAggregateMatchesReference | macOS/TetheringHelper/Swift/windows/DataUsageWindow/DataUsageViewController.swift:182-210 | The fold as evidently intended, with a day written only when the next day starts and the last day written after the loop, equals the per-day sums of every session for any day-grouped input whose total fits in Int64: none, one or more. |
| DataUsage.FixedAggregateNeverNil | macOS/TetheringHelper/Swift/windows/DataUsageWindow/DataUsageViewController.swift:196-200 | Without the `isLastSession` branch the first session never flushes, so `prevYearMonthKey!` cannot be nil, and a single session fills its own day. |
| DataUsage.FixedKeepsOldest | macOS/TetheringHelper/Swift/windows/DataUsageWindow/DataUsageViewController.swift:194-204 | On the two July 2021 sessions that the code as written loses one of, the corrected fold fills both days. |
| DataUsage.NewestFirstIsGrouped | macOS/TetheringHelper/Swift/windows/DataUsageWindow/DataUsageViewController.swift:188 | Sessions sorted newest first are grouped by day. |
| DataUsage.NewestFirstAggregate | macOS/TetheringHelper/Swift/windows/DataUsageWindow/DataUsageViewController.swift:182-210 | For the stored newest-first order, aggregation equals the per-day sums of every session but the oldest. |
| DataUsageWindow.Reduce | macOS/TetheringHelper/Swift/windows/DataUsageWindow/DataUsageViewController.swift:156 | The sum of a prefix succeeds exactly when every running sum fits in Int64, and then it is the prefix's sum. |
| DataUsageWindow.Visualize | macOS/TetheringHelper/Swift/windows/DataUsageWindow/DataUsageViewController.swift:152-159 | A month with data shows its array, and a month without shows `daysInMonth` zeros with total 0. The shown total is the sum of the shown days. For a month with data it traps exactly when the monthly `reduce` traps, that is, when a partial sum leaves Int64. |
| DataUsageWindow.VisualizeSucceeds | macOS/TetheringHelper/Swift/windows/DataUsageWindow/DataUsageViewController.swift:152-159 | With non-negative entries whose sum fits in Int64, visualising never traps. |
| DataUsageWindow.MonthsWithData | macOS/TetheringHelper/Swift/windows/DataUsageWindow/DataUsageViewController.swift:129-131 | Strictly ascending, containing exactly the months 1..12 that have data in the year. |
| DataUsageWindow.YearList | macOS/TetheringHelper/Swift/windows/DataUsageWindow/DataUsageViewController.swift:138-139 | Every year from the first to the last, inclusive and ascending. A reversed range traps. |
| DataUsageWindow.Load | macOS/TetheringHelper/Swift/windows/DataUsageWindow/DataUsageViewController.swift:36-55 | No sessions or one session trap. Otherwise the bounds are the oldest and newest sessions, the usage is the aggregation, and the year list, month list and shown month are built from it. With two or more sessions it succeeds exactly when the aggregation, the year range and the shown month all succeed. |
| DataUsageWindow.NewestFirstYearList | macOS/TetheringHelper/Swift/windows/DataUsageWindow/DataUsageViewController.swift:138-139 | For newest-first sessions the year range is never reversed. |
| DataUsageWindow.WalkDistance | macOS/TetheringHelper/Swift/windows/DataUsageWindow/DataUsageViewController.swift:110-115 | Each step moves exactly one month towards the bound, which bounds the search. |
| DataUsageWindow.SelectMonth | macOS/TetheringHelper/Swift/windows/DataUsageWindow/DataUsageViewController.swift:96-123 | The search: <br>• It takes steps exactly when the start is in bounds. <br>• Every month passed was in bounds and had no data, and it stops at the first month with data or out of bounds, at most distance + 1 steps. <br>• The result is that month clamped to [first, last], so it lies in the bounds whenever first ≤ last. |
| PairingProgress.Tick | TetheringHelper/StatusItemPairingProgress.swift:36-44 | A tick traps exactly when the counter is not a quality raw value. It shows the quality equal to the counter with type no signal. The next counter is the successor modulo the case count, so it stays in range. |
| PairingProgress.TicksFromStart | TetheringHelper/StatusItemPairingProgress.swift:16 | From the initial counter 0, no tick ever traps, and after n ticks the counter is n modulo the case count. |
| PairingProgress.FullCycles | TetheringHelper/StatusItemPairingProgress.swift:42-43 | After any whole number of rounds of case-count ticks, the counter is back at its start. |

## Left out

- Network I/O: `NWConnection`, Bonjour browsing and resolving (`NetServiceBrowser`, `NetService`), the Android server sockets and DNS-SD registration. Their callbacks are modelled as `AndroidConnector.Event` values in the order they arrive.
- Concurrency and waiting: dispatch queues, `waitFor` with its floating-point timeouts and `Thread.sleep`. The callbacks that arrive while waiting are passed as event sequences instead.
- The background loop's repetition and sleep: one iteration is modelled (`BackgroundLoop.Iteration`).
- The interface name read in the loop: it is taken as the connector's `localInterfaceName`.
- Counter sampling through `getifaddrs`: it is the sample parameter of `TrackSession`, with `None` for a thrown error.
- The telephony queries in `PhoneSignal.getSignal` (network type, signal level, display info, SDK level): they are parameters.
- The Wi-Fi address lookup and `NetworkInterface` enumeration: they are parameters.
- CoreData persistence (`SessionStorage`, `PersistentContainer`): a session record is a value inside the tracker, and the stored session list is an input sequence. Its newest-first order is a hypothesis (`DataUsage.NewestFirst`), not something proved.
- UI and drawing: status items, menus, windows, the bar chart's floating-point heights, and the MB/GB text of the data-usage window.
- The month and year pop-up handlers (DataUsageViewController.swift:57-86). They only re-run the modelled month list and visualisation.
- `DateFormatter` month names: months are their numbers 1..12.
- `Date` values: a date is a (year, month, day, second of day) record in the proleptic Gregorian calendar, with astronomical year numbers. Time zones and daylight saving are not modelled.
- Dates.FromYearAndMonth: it returns a date for every year and month, where Foundation's result is optional; the model never produces the nil case.
- Dates.AddMonths: `Calendar.current.date(byAdding:)` is modelled as month arithmetic that clamps the day. It always returns a date, so the `!` at DataUsageViewController.swift:111 cannot trap in the model.
- DataUsage.Step: a session's `created` date is always present, so the `session.created!` and `prevSession!.created!` unwraps (DataUsageViewController.swift:190-191, 198) cannot trap in the model. The CoreData attribute is optional, but SessionStorage.swift:29 sets it on every new session.
- AndroidConnector.Fetch: it requires a resolved service, where the source force-unwraps `tetheringHelperServiceResolved!` (AndroidConnector.swift:64-65). The only caller, `getSignal`, fetches only after `isPaired` holds (AndroidConnector.swift:48-52), and being paired means a resolved service is stored, so the unwrap cannot trap there.
- Dates.DaysInMonth: it is total, where the source force-unwraps `dateInterval(of: .month, for:)!` and `.day!` (Date+Components.swift:35-36). Every valid date lies in a month with a start and a length, so the model has no nil case there.
- DataUsageWindow.Load: for the same reason, a newest session without a `created` date cannot make `lastSessionCreated!` (DataUsageViewController.swift:44-47) trap. The trap for having no sessions at all is modelled.
- `Data` and UTF-8 decoding: the message is a `string`.
- JSON: `Json` reads the one shape the phone sends, an object whose members are integers or escape-free strings. A message using escapes, fractions, exponents, `true`/`false`/`null`, arrays or nested objects is reported as malformed, where Foundation's `JSONDecoder` might still accept it.
- Duplicate JSON keys: the first occurrence is used.
- `ServiceResponse.Decode`: it is weaker than `JSONDecoder` for the JSON forms above. It agrees on every message the phone produces (`Wire.WireRoundTrip`).
- The data-usage map: it is keyed by a (year, month) record rather than the "year-month" string. `Dates.YearMonthKeyOneToOne` shows the two keyings are one-to-one for valid dates.
- Session identity: the fold's `session == tetheringSessions.last` test is taken as "this is the last index".
- Old SignalQuality: TetheringHelper/SignalQuality.swift, the older target's enumeration, is not part of this model. `PairingProgress` assumes the same five raw values 0..4 as macOS/Hotspot Menubar/Swift/model/SignalQuality.swift.
- `PairingProgress`: the animation timer is left out; only the counter is modelled.
- Drawing the frame passed to `setSignal` is left out too.

## Findings

| source | as written | input that shows it | evidently intended | confidence | as-written member | corrected member |
|---|---|---|---|---|---|---|
| macOS/TetheringHelper/Swift/SessionTracker.swift:78-85 | on wrap-around, `(UInt32.max - past) + now` | past = 4294967295, now = 0: the counter advanced by one byte, but the difference is 0 | the modular distance `(now - past) mod 2^32`, here 1 | not executed | ByteCounter.WrapByOneIsLost | ByteCounter.ModularDifference |
| macOS/TetheringHelper/Swift/windows/DataUsageWindow/DataUsageViewController.swift:194-204 | on the last session, `isLastSession` writes the previous day's total and then adds the last session's bytes to a running total that is never written | sessions of 5 bytes on 2 July 2021 and 7 bytes on 1 July 2021: 1 July stays 0; if the oldest session is alone in its month, that month is missing from the map | every session counted on its day: a day written when the next day starts, and the last day written after the loop | not executed | DataUsage.LastSessionLost | DataUsage.FixedAggregateMatchesReference |
| macOS/TetheringHelper/Swift/windows/DataUsageWindow/DataUsageViewController.swift:197 | on the first session, `isLastSession` forces a flush with `prevYearMonthKey` still nil | exactly one stored session: `prevYearMonthKey!` crashes; DataUsageWindowController.swift:26 only rules out zero sessions | a single session fills its own day | not executed | DataUsage.AggregateOutcomes | DataUsage.FixedAggregateNeverNil |

The older tracker has the same code (TetheringHelper/SessionTracker.swift:69-76). Every wrap-around loses exactly one byte (`ByteCounter.DifferenceVersusModular`). Both trackers use the code as written (`ByteCounter.Difference`), so their totals are the program's totals. `ByteCounter.ModularDifference` is proved to be the unique 32-bit delta that advances `past` to `now`.

The window loads through the fold as written (`DataUsage.Aggregate`), so `DataUsageWindow.Load` crashes on one session and shows what the program shows. The corrected fold `DataUsage.FixedAggregate` drops the `isLastSession` branch and writes the running total once more after the loop. `DataUsage.FixedAggregateMatchesReference` proves it equal to the reference sum `DataUsage.Reference` over all sessions. That reference is the intended meaning; `DataUsage.ReferenceDay` states it day by day.
