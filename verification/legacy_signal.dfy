/** The earlier desktop `SignalType`: seven cases, no "5G+". */
module LegacySignal {
  import opened Wrappers

  datatype SignalType = NoSignal | TwoG | Edge | ThreeG | Hsdpa | Lte | FiveG

  function RawValue(t: SignalType): string {
    match t
    case NoSignal => ""
    case TwoG => "2G"
    case Edge => "E"
    case ThreeG => "3G"
    case Hsdpa => "H"
    case Lte => "LTE"
    case FiveG => "5G"
  }

  /** `allCases`, in declaration order. */
  const AllCases: seq<SignalType> := [NoSignal, TwoG, Edge, ThreeG, Hsdpa, Lte, FiveG]

  const RawValues: set<string> := {"", "2G", "E", "3G", "H", "LTE", "5G"}

  /** `SignalType(rawValue:)` for this enumeration. */
  function FromRawValue(s: string): (r: Option<SignalType>)
    ensures r.Some? ==> RawValue(r.value) == s
    ensures r.Some? <==> s in RawValues
  {
    if s == "" then Some(NoSignal)
    else if s == "2G" then Some(TwoG)
    else if s == "E" then Some(Edge)
    else if s == "3G" then Some(ThreeG)
    else if s == "H" then Some(Hsdpa)
    else if s == "LTE" then Some(Lte)
    else if s == "5G" then Some(FiveG)
    else None
  }

  /** Every case appears in `allCases` exactly once, and its raw value round-trips. */
  lemma AllCasesComplete(t: SignalType)
    ensures t in AllCases
    ensures forall i, j :: 0 <= i < j < |AllCases| ==> AllCases[i] != AllCases[j]
    ensures FromRawValue(RawValue(t)) == Some(t)
  {
  }

  /** This variant has no "5G+" case. */
  lemma NoFiveGPlus()
    ensures FromRawValue("5G+") == None
    ensures |AllCases| == 7
  {
  }
}
