/** The earlier `SessionTracker`: the same session rules without a persisted
    record or delegate, keeping only `sessionBytesTransferred`. */
module LegacySessionTracker {
  import opened Wrappers
  import opened BoundedInts
  import opened Pairing
  import opened ByteCounter

  datatype Tracker = Tracker(sessionBytesTransferred: UInt64, sessionActive: bool, last: Counters)

  const Initial: Tracker := Tracker(0, false, ZeroCounters)

  /** `try!` on a failed sample, or `+=` overflowing UInt64. */
  datatype Trap = SampleFailed | BytesOverflow

  predicate Idle(t: Tracker) {
    !t.sessionActive && t.sessionBytesTransferred == 0 && t.last == ZeroCounters
  }

  /** `trackSession(pairingStatus:localInterfaceName:)` of this version. */
  function TrackSession(t: Tracker, status: PairingStatus, iface: Option<string>, sample: Option<Counters>)
    : (r: Result<Tracker, Trap>)
    ensures IsPaired(status) && iface.None? ==> r == Success(t)
    ensures !IsPaired(status) ==> r == Success(if t.sessionActive then Initial else t)
    ensures r == Failure(SampleFailed) <==> IsPaired(status) && iface.Some? && sample.None?
    // Opening: active, baseline from the sample, total untouched.
    ensures IsPaired(status) && iface.Some? && sample.Some? && !t.sessionActive ==>
              r == Success(Tracker(t.sessionBytesTransferred, true, sample.value))
    // Accumulating: both differences added, baseline replaced, total never smaller.
    ensures IsPaired(status) && iface.Some? && sample.Some? && t.sessionActive ==>
              var total := t.sessionBytesTransferred
                           + Difference(t.last.inputBytes, sample.value.inputBytes)
                           + Difference(t.last.outputBytes, sample.value.outputBytes);
              && (r == Failure(BytesOverflow) <==> total > UINT64_MAX)
              && (r.Success? ==> r.value == Tracker(total, true, sample.value)
                                 && r.value.sessionBytesTransferred >= t.sessionBytesTransferred)
  {
    if IsPaired(status) then
      if iface.None? then Success(t)
      else
        match sample
        case None => Failure(SampleFailed)
        case Some(now) =>
          if !t.sessionActive then
            Success(t.(sessionActive := true, last := now))
          else
            var total := t.sessionBytesTransferred
                         + Difference(t.last.inputBytes, now.inputBytes)
                         + Difference(t.last.outputBytes, now.outputBytes);
            if total > UINT64_MAX then Failure(BytesOverflow)
            else Success(t.(sessionBytesTransferred := total, last := now))
    else if t.sessionActive then
      Success(t.(sessionActive := false, last := ZeroCounters, sessionBytesTransferred := 0))
    else
      Success(t)
  }

  /** An idle tracker stays idle until a paired tick with an interface opens a
      session, and every unpaired tick leaves it idle. */
  lemma UnpairedLeavesIdle(t: Tracker, iface: Option<string>, sample: Option<Counters>)
    ensures TrackSession(t, Unpaired, iface, sample).Success?
    ensures Idle(TrackSession(t, Unpaired, iface, sample).value) <== Idle(t) || t.sessionActive
  {
  }
}
