/** The two versions of the session tracker count bytes the same way: the
    later one only adds the persisted record and the delegate call. */
module TrackerVersions {
  import opened Wrappers
  import opened Pairing
  import opened ByteCounter
  import SessionTracker
  import LegacySessionTracker

  function Forget(t: SessionTracker.Tracker): LegacySessionTracker.Tracker {
    LegacySessionTracker.Tracker(t.bytesTransferred, t.sessionActive, t.last)
  }

  /** Whenever the later tracker completes a tick, the earlier one completes
      the same tick with the same total, session flag and baseline. */
  lemma SameAccounting(t: SessionTracker.Tracker, status: PairingStatus, iface: Option<string>, sample: Option<Counters>)
    ensures SessionTracker.TrackSession(t, status, iface, sample).Success? ==>
              LegacySessionTracker.TrackSession(Forget(t), status, iface, sample)
              == Success(Forget(SessionTracker.TrackSession(t, status, iface, sample).value.tracker))
  {
  }
}
