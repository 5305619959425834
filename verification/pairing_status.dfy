/** The desktop's view of whether a phone is currently paired. */
module Pairing {
  import opened Wrappers

  /** Only the paired case carries a phone name, so "unpaired with a name"
      cannot be represented. */
  datatype PairingStatus = Paired(phoneName: string) | Unpaired

  /** `isPaired`: decided by the case alone. */
  function IsPaired(status: PairingStatus): (paired: bool)
    ensures paired <==> exists name :: status == Paired(name)
  {
    match status
    case Paired(_) => true
    case Unpaired => false
  }

  /** `phoneName`: the name carried by the paired case, nil otherwise. */
  function PhoneName(status: PairingStatus): (name: Option<string>)
    ensures name.Some? <==> IsPaired(status)
    ensures forall n :: status == Paired(n) ==> name == Some(n)
  {
    match status
    case Paired(n) => Some(n)
    case Unpaired => None
  }

  /** `isPaired` ignores the name: any two paired statuses agree. */
  lemma IsPairedIgnoresName(a: string, b: string)
    ensures IsPaired(Paired(a)) == IsPaired(Paired(b)) == true
    ensures !IsPaired(Unpaired)
  {
  }
}
