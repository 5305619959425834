/** The desktop's signal enumerations: `SignalQuality` with integer raw values
    and the eight-case `SignalType` with string raw values, decoded from the
    phone's message through `init(rawValue:)`. */
module DesktopSignal {
  import opened Wrappers

  datatype SignalQuality = NoSignal | OneBar | TwoBars | ThreeBars | FourBars

  function QualityRawValue(q: SignalQuality): int {
    match q
    case NoSignal => 0
    case OneBar => 1
    case TwoBars => 2
    case ThreeBars => 3
    case FourBars => 4
  }

  /** `SignalQuality(rawValue:)`: nil for every integer that is not a raw value. */
  function QualityFromRawValue(n: int): (r: Option<SignalQuality>)
    ensures r.Some? <==> 0 <= n <= 4
    ensures r.Some? ==> QualityRawValue(r.value) == n
  {
    if n == 0 then Some(SignalQuality.NoSignal)
    else if n == 1 then Some(OneBar)
    else if n == 2 then Some(TwoBars)
    else if n == 3 then Some(ThreeBars)
    else if n == 4 then Some(FourBars)
    else None
  }

  /** `SignalQuality.allCases.count`. */
  const QualityCaseCount: nat := 5

  lemma QualityRawValueRoundTrip(q: SignalQuality)
    ensures QualityFromRawValue(QualityRawValue(q)) == Some(q)
    ensures 0 <= QualityRawValue(q) < QualityCaseCount
  {
  }

  datatype SignalType = NoSignal | TwoG | Edge | ThreeG | Hsdpa | Lte | FiveG | FiveGPlus

  function RawValue(t: SignalType): string {
    match t
    case NoSignal => ""
    case TwoG => "2G"
    case Edge => "E"
    case ThreeG => "3G"
    case Hsdpa => "H"
    case Lte => "LTE"
    case FiveG => "5G"
    case FiveGPlus => "5G+"
  }

  /** The raw values, one per case. */
  const RawValues: set<string> := {"", "2G", "E", "3G", "H", "LTE", "5G", "5G+"}

  /** `SignalType(rawValue:)`: exact, case-sensitive string comparison. */
  function FromRawValue(s: string): (r: Option<SignalType>)
    ensures r.Some? <==> s in RawValues
    ensures r.Some? ==> RawValue(r.value) == s
  {
    if s == "" then Some(SignalType.NoSignal)
    else if s == "2G" then Some(TwoG)
    else if s == "E" then Some(Edge)
    else if s == "3G" then Some(ThreeG)
    else if s == "H" then Some(Hsdpa)
    else if s == "LTE" then Some(Lte)
    else if s == "5G" then Some(FiveG)
    else if s == "5G+" then Some(FiveGPlus)
    else None
  }

  /** Raw values are pairwise distinct, so the raw value round-trips, and the
      set of raw values is exactly `RawValues`. */
  lemma RawValueRoundTrip(t: SignalType)
    ensures FromRawValue(RawValue(t)) == Some(t)
    ensures RawValue(t) in RawValues
    ensures forall u: SignalType :: RawValue(u) == RawValue(t) ==> u == t
  {
  }

  /** Letter case matters: lower-case spellings are not raw values. */
  lemma LowerCaseIsRejected()
    ensures FromRawValue("lte") == None
    ensures FromRawValue("3g") == None
    ensures FromRawValue("5g+") == None
  {
  }
}
