/** The status item's pairing animation: a counter cycling through the
    signal qualities, each shown with no signal type. */
module PairingProgress {
  import opened Wrappers
  import opened DesktopSignal
  import LegacySignal

  /** `currentSignalQualityAnimation`. */
  datatype Progress = Progress(counter: int)

  const Initial: Progress := Progress(0)

  /** What one tick hands to `setSignal`. */
  datatype Frame = Frame(quality: SignalQuality, signalType: LegacySignal.SignalType)

  datatype Ticked = Ticked(frame: Frame, next: Progress)

  /** `animationTick`: show the counter's quality, then advance the counter
      modulo the number of qualities. `None` is the trap of
      `SignalQuality(rawValue:)!` on a counter that is not a raw value. */
  function Tick(p: Progress): (r: Option<Ticked>)
    ensures r.Some? <==> 0 <= p.counter < QualityCaseCount
    ensures r.Some? ==> QualityRawValue(r.value.frame.quality) == p.counter
    ensures r.Some? ==> r.value.frame.signalType == LegacySignal.SignalType.NoSignal
    ensures r.Some? ==> 0 <= r.value.next.counter < QualityCaseCount
    ensures r.Some? && p.counter < QualityCaseCount - 1 ==> r.value.next.counter == p.counter + 1
    ensures r.Some? && p.counter == QualityCaseCount - 1 ==> r.value.next.counter == 0
  {
    match QualityFromRawValue(p.counter)
    case None => None
    case Some(q) => Some(Ticked(Frame(q, LegacySignal.SignalType.NoSignal), Progress((p.counter + 1) % QualityCaseCount)))
  }

  /** The counter after `n` ticks, `None` once a tick traps. */
  function Ticks(p: Progress, n: nat): Option<Progress>
    decreases n
  {
    if n == 0 then Some(p)
    else
      match Tick(p)
      case None => None
      case Some(t) => Ticks(t.next, n - 1)
  }

  /** From the initial counter no tick ever traps, and after `n` ticks the
      counter, and so the quality shown next, is `n` modulo the count. */
  lemma {:induction false} TicksFromStart(n: nat)
    ensures Ticks(Initial, n) == Some(Progress(n % QualityCaseCount))
  {
    TicksFrom(0, n);
  }

  lemma {:induction false} TicksFrom(c: nat, n: nat)
    requires c < QualityCaseCount
    ensures Ticks(Progress(c), n) == Some(Progress((c + n) % QualityCaseCount))
    decreases n
  {
    if n > 0 {
      var next := (c + 1) % QualityCaseCount;
      assert Tick(Progress(c)).value.next == Progress(next);
      TicksFrom(next, n - 1);
      assert (next + (n - 1)) % QualityCaseCount == (c + n) % QualityCaseCount;
    }
  }

  /** After any whole number of rounds, as many ticks as there are
      qualities each, the counter is back where it started. */
  lemma FullCycles(p: Progress, rounds: nat)
    requires 0 <= p.counter < QualityCaseCount
    ensures Ticks(p, rounds * QualityCaseCount) == Some(p)
  {
    TicksFrom(p.counter, rounds * QualityCaseCount);
    assert (p.counter + rounds * QualityCaseCount) % QualityCaseCount == p.counter;
  }
}
