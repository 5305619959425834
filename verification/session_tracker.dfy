/** The desktop's `SessionTracker`: decides when a tethering session starts and
    ends, and accumulates the bytes transferred during it from successive
    interface-counter samples. Each call of `trackSession` is one pure
    transition on an immutable `Tracker`. */
module SessionTracker {
  import opened Wrappers
  import opened BoundedInts
  import opened Pairing
  import opened ByteCounter

  /** The persisted `TetheringSession` the tracker keeps up to date
      (its creation date is not modelled). */
  datatype SessionRecord = SessionRecord(phoneName: string, bytesTransferred: int)

  datatype Tracker = Tracker(
    bytesTransferred: UInt64,
    sessionActive: bool,
    last: Counters,
    current: Option<SessionRecord>)

  /** The values the tracker is constructed with. */
  const Initial: Tracker := Tracker(0, false, ZeroCounters, None)

  /** The ways `trackSession` traps: `try!` on a failed sample, `+=` overflowing
      UInt64, `Int64(bytesTransferred)` out of range. */
  datatype Trap = SampleFailed | BytesOverflow | Int64ConversionOverflow

  /** The new tracker, and the total passed to
      `sessionBytesTransferredUpdated`, if that delegate was called. */
  datatype Tick = Tick(tracker: Tracker, reported: Option<UInt64>)

  /** What the tracker promises between ticks: no session means nothing
      counted and a zero baseline; an open session has its record, which
      holds the running total. */
  predicate Consistent(t: Tracker) {
    && (!t.sessionActive ==> t.bytesTransferred == 0 && t.last == ZeroCounters && t.current == None)
    && (t.sessionActive ==> t.current.Some? && t.current.value.bytesTransferred == t.bytesTransferred)
  }

  /** Bytes added by one accumulating tick: both differences, widened to 64 bits. */
  function TickBytes(past: Counters, now: Counters): nat {
    Difference(past.inputBytes, now.inputBytes) + Difference(past.outputBytes, now.outputBytes)
  }

  /** `trackSession(pairingStatus:localInterfaceName:)`; `sample` is what
      `getIfaddrsBytesTransferred` returns for the interface, `None` when it throws. */
  function TrackSession(t: Tracker, status: PairingStatus, iface: Option<string>, sample: Option<Counters>)
    : (r: Result<Tick, Trap>)
    // Paired without an interface name: nothing changes.
    ensures IsPaired(status) && iface.None? ==> r == Success(Tick(t, None))
    // Not paired and no session: nothing changes.
    ensures !IsPaired(status) && !t.sessionActive ==> r == Success(Tick(t, None))
    // Not paired with a session: the session is dropped and everything resets.
    ensures !IsPaired(status) && t.sessionActive ==> r == Success(Tick(Initial, None))
    // Sampling is attempted exactly when paired with an interface name.
    ensures r == Failure(SampleFailed) <==> IsPaired(status) && iface.Some? && sample.None?
    // Opening tick: the sample becomes the baseline, the total is untouched,
    // a record named after the phone starts at zero.
    ensures IsPaired(status) && iface.Some? && sample.Some? && !t.sessionActive ==>
              r == Success(Tick(Tracker(t.bytesTransferred, true, sample.value,
                                        Some(SessionRecord(status.phoneName, 0))), None))
    // Accumulating tick: the total grows by both differences, the baseline
    // moves to the sample, the record and the delegate see the new total.
    ensures IsPaired(status) && iface.Some? && sample.Some? && t.sessionActive && r.Success? ==>
              var total := t.bytesTransferred + TickBytes(t.last, sample.value);
              && r.value.tracker.bytesTransferred == total >= t.bytesTransferred
              && r.value.tracker.sessionActive
              && r.value.tracker.last == sample.value
              && r.value.reported == Some(total)
              && (t.current.Some? ==> r.value.tracker.current == Some(t.current.value.(bytesTransferred := total)))
    // The accumulating tick traps exactly on a 64-bit overflow.
    ensures IsPaired(status) && iface.Some? && sample.Some? && t.sessionActive ==>
              var total := t.bytesTransferred + TickBytes(t.last, sample.value);
              && (r == Failure(BytesOverflow) <==> total > UINT64_MAX)
              && (r == Failure(Int64ConversionOverflow) <==> total <= UINT64_MAX && total > INT64_MAX && t.current.Some?)
  {
    if IsPaired(status) then
      if iface.None? then Success(Tick(t, None))
      else
        match sample
        case None => Failure(SampleFailed)
        case Some(now) =>
          if !t.sessionActive then
            Success(Tick(t.(sessionActive := true, last := now,
                            current := Some(SessionRecord(PhoneName(status).value, 0))), None))
          else
            var total := t.bytesTransferred + TickBytes(t.last, now);
            if total > UINT64_MAX then Failure(BytesOverflow)
            else if t.current.Some? && total > INT64_MAX then Failure(Int64ConversionOverflow)
            else
              var record := if t.current.Some? then Some(t.current.value.(bytesTransferred := total)) else None;
              Success(Tick(t.(bytesTransferred := total, last := now, current := record), Some(total)))
    else if t.sessionActive then
      Success(Tick(t.(sessionActive := false, last := ZeroCounters, bytesTransferred := 0, current := None), None))
    else
      Success(Tick(t, None))
  }

  /** Every tick that does not trap keeps the tracker consistent, and the
      initial tracker is consistent. */
  lemma TrackSessionKeepsConsistent(t: Tracker, status: PairingStatus, iface: Option<string>, sample: Option<Counters>)
    requires Consistent(t)
    ensures Consistent(Initial)
    ensures TrackSession(t, status, iface, sample).Success? ==>
              Consistent(TrackSession(t, status, iface, sample).value.tracker)
  {
  }

  /** One tick's inputs: the connector's status and interface name, and the
      counter sample taken for that interface. */
  datatype TickInput = TickInput(status: PairingStatus, iface: Option<string>, sample: Option<Counters>)

  /** A sequence of ticks, stopping at the first trap. */
  function Run(t: Tracker, inputs: seq<TickInput>): Result<Tracker, Trap>
    decreases |inputs|
  {
    if |inputs| == 0 then Success(t)
    else
      match TrackSession(t, inputs[0].status, inputs[0].iface, inputs[0].sample)
      case Failure(e) => Failure(e)
      case Success(tick) => Run(tick.tracker, inputs[1..])
  }

  lemma {:induction false} RunKeepsConsistent(t: Tracker, inputs: seq<TickInput>)
    requires Consistent(t)
    ensures Run(t, inputs).Success? ==> Consistent(Run(t, inputs).value)
    decreases |inputs|
  {
    if |inputs| > 0 {
      var i := inputs[0];
      TrackSessionKeepsConsistent(t, i.status, i.iface, i.sample);
      if TrackSession(t, i.status, i.iface, i.sample).Success? {
        RunKeepsConsistent(TrackSession(t, i.status, i.iface, i.sample).value.tracker, inputs[1..]);
      }
    }
  }

  /** Bytes counted over consecutive samples: the sum of the tick differences. */
  function SessionBytes(samples: seq<Counters>): nat
    decreases |samples|
  {
    if |samples| < 2 then 0
    else SessionBytes(samples[..|samples| - 1]) + TickBytes(samples[|samples| - 2], samples[|samples| - 1])
  }

  /** Ticks of one phone on one interface with the given samples. */
  function PairedTicks(name: string, iface: string, samples: seq<Counters>): (inputs: seq<TickInput>)
    ensures |inputs| == |samples|
    ensures forall i :: 0 <= i < |samples| ==> inputs[i] == TickInput(Paired(name), Some(iface), Some(samples[i]))
  {
    seq(|samples|, i requires 0 <= i < |samples| => TickInput(Paired(name), Some(iface), Some(samples[i])))
  }

  /** A session opened from a consistent, idle tracker and fed paired ticks
      counts exactly the sum of the differences between successive samples,
      ends with the last sample as its baseline, and keeps its record in step. */
  lemma {:induction false} SessionCountsSampleDifferences(t: Tracker, name: string, iface: string, samples: seq<Counters>)
    requires Consistent(t) && !t.sessionActive
    requires |samples| >= 1
    requires SessionBytes(samples) <= INT64_MAX
    ensures Run(t, PairedTicks(name, iface, samples))
            == Success(Tracker(SessionBytes(samples), true, samples[|samples| - 1],
                               Some(SessionRecord(name, SessionBytes(samples)))))
    decreases |samples|
  {
    var n := |samples|;
    if n == 1 {
      assert PairedTicks(name, iface, samples)[1..] == [];
    } else {
      var front := samples[..n - 1];
      var bytes := SessionBytes(front);
      var tick := TickInput(Paired(name), Some(iface), Some(samples[n - 1]));
      assert front[n - 2] == samples[n - 2];
      assert SessionBytes(samples) == bytes + TickBytes(front[n - 2], samples[n - 1]);
      SessionCountsSampleDifferences(t, name, iface, front);
      PairedTicksSnoc(name, iface, samples);
      RunSplit(t, PairedTicks(name, iface, front), tick);
      AccumulatingTick(name, iface, bytes, front[n - 2], samples[n - 1]);
    }
  }

  lemma PairedTicksSnoc(name: string, iface: string, samples: seq<Counters>)
    requires |samples| >= 1
    ensures PairedTicks(name, iface, samples)
            == PairedTicks(name, iface, samples[..|samples| - 1])
               + [TickInput(Paired(name), Some(iface), Some(samples[|samples| - 1]))]
  {
  }

  /** One paired tick on an open session whose record holds its total. */
  lemma AccumulatingTick(name: string, iface: string, bytes: nat, past: Counters, now: Counters)
    requires bytes + TickBytes(past, now) <= INT64_MAX
    ensures Run(Tracker(bytes, true, past, Some(SessionRecord(name, bytes))),
                [TickInput(Paired(name), Some(iface), Some(now))])
            == Success(Tracker(bytes + TickBytes(past, now), true, now,
                               Some(SessionRecord(name, bytes + TickBytes(past, now)))))
  {
    var t := Tracker(bytes, true, past, Some(SessionRecord(name, bytes)));
    var inputs := [TickInput(Paired(name), Some(iface), Some(now))];
    assert inputs[1..] == [];
  }

  /** Running a sequence and then one more tick. */
  lemma {:induction false} RunSplit(t: Tracker, inputs: seq<TickInput>, last: TickInput)
    ensures Run(t, inputs + [last])
            == match Run(t, inputs)
               case Failure(e) => Failure(e)
               case Success(u) => Run(u, [last])
    decreases |inputs|
  {
    if |inputs| > 0 {
      assert (inputs + [last])[1..] == inputs[1..] + [last];
      match TrackSession(t, inputs[0].status, inputs[0].iface, inputs[0].sample)
      case Failure(e) =>
      case Success(tick) => RunSplit(tick.tracker, inputs[1..], last);
    } else {
      assert inputs + [last] == [last];
    }
  }

  /** Unpaired, then paired with counters (100, 100), then (150, 120), then
      unpaired: the session counts (150 - 100) + (120 - 100) = 70 bytes
      before it closes, and the tracker is back to its initial values. */
  lemma SeventyBytesSession()
    ensures Run(Initial, [TickInput(Unpaired, None, None),
                          TickInput(Paired("phone-x"), Some("en5"), Some(Counters(100, 100))),
                          TickInput(Paired("phone-x"), Some("en5"), Some(Counters(150, 120)))])
            == Success(Tracker(70, true, Counters(150, 120), Some(SessionRecord("phone-x", 70))))
    ensures Run(Tracker(70, true, Counters(150, 120), Some(SessionRecord("phone-x", 70))),
                [TickInput(Unpaired, None, None)]) == Success(Initial)
  {
  }
}
