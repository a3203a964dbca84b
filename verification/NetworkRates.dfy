/** The network rates of measureSystemMetrics. Counters and ticks are unsigned 64-bit, differences
    wrap around; the division is idealised to reals.
 */
module NetworkRates {
  import opened Options

  const WORD := 0x1_0000_0000_0000_0000

  type Word = x: nat | x < WORD

  datatype Sample = Sample(rx: Word, tx: Word, tick: Word)

  // The two samples of one metrics tick: the one of sendMetrics, which does not use its rates, and
  // the one whose rates pushMetricsToSource pushes.
  datatype Tick = Tick(posted: Sample, pushed: Sample)

  function Minus(a: Word, b: Word): Word { if a >= b then a - b else a + WORD - b }

  function Seconds(was: Sample, now: Sample): real { Minus(now.tick, was.tick) as real / 1000.0 }

  // A rate is reported only on top of a sample without a zero, and after time has passed.
  predicate Reported(was: Sample, now: Sample) {
    was.rx != 0 && was.tx != 0 && was.tick != 0 && now.tick != was.tick
  }

  datatype Rates = Rates(rx: real, tx: real)

  // The static previous values.
  class Meter {
    var prev: Sample

    constructor ()
      ensures prev == Sample(0, 0, 0)
    {
      prev := Sample(0, 0, 0);
    }

    method Measure(now: Sample) returns (rates: Option<Rates>)
      modifies this
      ensures prev == now
      ensures rates == RatesBetween(old(prev), now)
    {
      rates := None;
      if prev.rx != 0 && prev.tx != 0 && prev.tick != 0 {
        var dt := Minus(now.tick, prev.tick) as real / 1000.0;
        if dt > 0.0 {
          rates := Some(Rates(Minus(now.rx, prev.rx) as real / dt / 1024.0, Minus(now.tx, prev.tx) as real / dt / 1024.0));
        }
      }
      prev := now;
    }

    // A metrics tick of a running controller.
    method MeasureTick(tick: Tick) returns (pushed: Option<Rates>)
      modifies this
      ensures prev == tick.pushed
      ensures pushed == RatesBetween(tick.posted, tick.pushed)
    {
      var dropped := Measure(tick.posted);
      pushed := Measure(tick.pushed);
    }

    // Any run of them: what is pushed. Nothing of it depends on what was measured before.
    method MeasureTicks(ticks: seq<Tick>) returns (pushed: seq<Option<Rates>>)
      modifies this
      ensures prev == Before(old(prev), ticks, |ticks|)
      ensures |pushed| == |ticks| && forall k | 0 <= k < |ticks| :: pushed[k] == RatesBetween(ticks[k].posted, ticks[k].pushed)
    {
      pushed := [];
      for i := 0 to |ticks|
        invariant prev == Before(old(prev), ticks, i) && |pushed| == i
        invariant forall k | 0 <= k < i :: pushed[k] == RatesBetween(ticks[k].posted, ticks[k].pushed)
      {
        var rates := MeasureTick(ticks[i]);
        pushed := pushed + [rates];
      }
    }

    // Any list of samples: what is reported for each.
    method MeasureAll(samples: seq<Sample>) returns (all: seq<Option<Rates>>)
      modifies this
      ensures all == RatesOver(old(prev), samples)
      ensures prev == LastOf(old(prev), samples)
    {
      all := [];
      for i := 0 to |samples|
        invariant prev == LastOf(old(prev), samples[..i])
        invariant all == RatesOver(old(prev), samples[..i])
      {
        assert samples[..i + 1][..i] == samples[..i];
        var r := Measure(samples[i]);
        all := all + [r];
      }
      assert samples[..|samples|] == samples;
    }
  }

  function RatesBetween(was: Sample, now: Sample): Option<Rates> {
    if Reported(was, now) then
      Some(Rates(Minus(now.rx, was.rx) as real / Seconds(was, now) / 1024.0,
                 Minus(now.tx, was.tx) as real / Seconds(was, now) / 1024.0))
    else None
  }

  function LastOf(first: Sample, samples: seq<Sample>): Sample {
    if samples == [] then first else samples[|samples| - 1]
  }

  function RatesOver(first: Sample, samples: seq<Sample>): seq<Option<Rates>> {
    if samples == [] then []
    else
      var init := samples[..|samples| - 1];
      RatesOver(first, init) + [RatesBetween(LastOf(first, init), samples[|samples| - 1])]
  }

  // The rates are in kilobytes of 1024 bytes a second, ticks being milliseconds and all counters
  // wrapping around at 64 bits; a sample reports unless the one before had a zero or no time passed.
  lemma RatesAreKilobytesPerSecond(was: Sample, now: Sample)
    ensures RatesBetween(was, now).Some? <==> was.rx != 0 && was.tx != 0 && was.tick != 0 && was.tick != now.tick
    ensures RatesBetween(was, now).Some? ==>
              var (r, millis) := (RatesBetween(was, now).value, ((now.tick - was.tick) % 0x1_0000_0000_0000_0000) as real);
              && r.rx * 1024.0 * millis == 1000.0 * ((now.rx - was.rx) % 0x1_0000_0000_0000_0000) as real
              && r.tx * 1024.0 * millis == 1000.0 * ((now.tx - was.tx) % 0x1_0000_0000_0000_0000) as real
  {
    MinusIsModulo(now.tick, was.tick);
    MinusIsModulo(now.rx, was.rx);
    MinusIsModulo(now.tx, was.tx);
    if RatesBetween(was, now).Some? {
      var millis := Minus(now.tick, was.tick) as real;
      assert millis > 0.0;
      InKilobytes(Minus(now.rx, was.rx) as real, millis);
      InKilobytes(Minus(now.tx, was.tx) as real, millis);
    }
  }

  lemma MinusIsModulo(a: Word, b: Word)
    ensures Minus(a, b) == (a - b) % 0x1_0000_0000_0000_0000
  {}

  lemma InKilobytes(bytes: real, millis: real)
    requires millis > 0.0
    ensures bytes / (millis / 1000.0) / 1024.0 * 1024.0 * millis == 1000.0 * bytes
  {
    var seconds := millis / 1000.0;
    var q := bytes / seconds;
    assert q * seconds == bytes;
    assert q / 1024.0 * 1024.0 * millis == q * (seconds * 1000.0);
  }

  // ---- Where the bytes go --------------------------------------------------------------------

  datatype Direction = Rx | Tx

  function Count(d: Direction, s: Sample): Word { if d == Rx then s.rx else s.tx }

  function Rate(d: Direction, r: Rates): real { if d == Rx then r.rx else r.tx }

  // The bytes a sample stands for: its rate taken over its interval.
  function Bytes(d: Direction, was: Sample, now: Sample): real {
    match RatesBetween(was, now)
    case Some(r) => Rate(d, r) * Seconds(was, now) * 1024.0
    case None => 0.0
  }

  function ReportedBytes(d: Direction, first: Sample, samples: seq<Sample>): real {
    if samples == [] then 0.0
    else
      var init := samples[..|samples| - 1];
      ReportedBytes(d, first, init) + Bytes(d, LastOf(first, init), samples[|samples| - 1])
  }

  // Growth of the counter over the samples that report nothing.
  function Unreported(d: Direction, first: Sample, samples: seq<Sample>): int {
    if samples == [] then 0
    else
      var init := samples[..|samples| - 1];
      var was, now := LastOf(first, init), samples[|samples| - 1];
      Unreported(d, first, init) + if Reported(was, now) then 0 else Count(d, now) - Count(d, was)
  }

  // Samples that report although the counter has gone down.
  function FalseRises(d: Direction, first: Sample, samples: seq<Sample>): nat {
    if samples == [] then 0
    else
      var init := samples[..|samples| - 1];
      var was, now := LastOf(first, init), samples[|samples| - 1];
      FalseRises(d, first, init) + if Reported(was, now) && Count(d, now) < Count(d, was) then 1 else 0
  }

  lemma BytesAreExact(d: Direction, was: Sample, now: Sample)
    ensures Bytes(d, was, now) == if Reported(was, now) then Minus(Count(d, now), Count(d, was)) as real else 0.0
  {
    if Reported(was, now) {
      assert Minus(now.tick, was.tick) > 0;
      DivideAndMultiply(Minus(Count(d, now), Count(d, was)) as real, Seconds(was, now));
    }
  }

  lemma DivideAndMultiply(x: real, dt: real)
    requires dt > 0.0
    ensures x / dt / 1024.0 * dt * 1024.0 == x
  {
    var q := x / dt;
    assert q * dt == x;
    assert q / 1024.0 * dt * 1024.0 == q * dt;
  }

  // For any list of samples, reported and unreported bytes telescope to last minus first, up to one
  // full word for every reporting sample at which the counter fell.
  lemma {:induction false} BytesTelescope(d: Direction, first: Sample, samples: seq<Sample>)
    ensures ReportedBytes(d, first, samples) + Unreported(d, first, samples) as real
         == (Count(d, LastOf(first, samples)) - Count(d, first) + WORD * FalseRises(d, first, samples)) as real
  {
    if samples != [] {
      BytesTelescope(d, first, samples[..|samples| - 1]);
      BytesAreExact(d, LastOf(first, samples[..|samples| - 1]), samples[|samples| - 1]);
    }
  }

  // The rates account for the counter exactly as long as no reporting sample sees it fall.
  lemma RatesAccountIff(d: Direction, first: Sample, samples: seq<Sample>)
    ensures ReportedBytes(d, first, samples) + Unreported(d, first, samples) as real
         == (Count(d, LastOf(first, samples)) - Count(d, first)) as real
       <==> FalseRises(d, first, samples) == 0
  {
    BytesTelescope(d, first, samples);
  }

  // ---- Metrics ticks -------------------------------------------------------------------------

  function Samples(ticks: seq<Tick>): seq<Sample> {
    if ticks == [] then []
    else Samples(ticks[..|ticks| - 1]) + [ticks[|ticks| - 1].posted] + [ticks[|ticks| - 1].pushed]
  }

  // The last sample before the k-th tick.
  function Before(first: Sample, ticks: seq<Tick>, k: nat): Sample
    requires k <= |ticks|
  {
    if k == 0 then first else ticks[k - 1].pushed
  }

  // The bytes that the pushed rates stand for.
  function PushedBytes(d: Direction, ticks: seq<Tick>): real {
    if ticks == [] then 0.0
    else PushedBytes(d, ticks[..|ticks| - 1]) + Bytes(d, ticks[|ticks| - 1].posted, ticks[|ticks| - 1].pushed)
  }

  // The bytes between ticks, measured and dropped.
  function DroppedBytes(d: Direction, first: Sample, ticks: seq<Tick>): real {
    if ticks == [] then 0.0
    else
      var n := |ticks| - 1;
      DroppedBytes(d, first, ticks[..n]) + Bytes(d, Before(first, ticks, n), ticks[n].posted)
  }

  // By how much the counter moves within the ticks that report.
  function GrowthInTicks(d: Direction, ticks: seq<Tick>): nat {
    if ticks == [] then 0
    else
      var t := ticks[|ticks| - 1];
      GrowthInTicks(d, ticks[..|ticks| - 1])
      + if Reported(t.posted, t.pushed) then Minus(Count(d, t.pushed), Count(d, t.posted)) else 0
  }

  // Every byte measured is pushed or dropped, and what is pushed is the movement of the counter
  // within ticks.
  lemma {:induction false} PushesCoverTicksOnly(d: Direction, first: Sample, ticks: seq<Tick>)
    ensures ReportedBytes(d, first, Samples(ticks)) == PushedBytes(d, ticks) + DroppedBytes(d, first, ticks)
    ensures PushedBytes(d, ticks) == GrowthInTicks(d, ticks) as real
    ensures LastOf(first, Samples(ticks)) == Before(first, ticks, |ticks|)
    ensures (forall t | t in ticks :: t.posted.tick == t.pushed.tick) ==> PushedBytes(d, ticks) == 0.0
  {
    if ticks != [] {
      var init, t := ticks[..|ticks| - 1], ticks[|ticks| - 1];
      assert t in ticks;
      PushesCoverTicksOnly(d, first, init);
      BytesAreExact(d, t.posted, t.pushed);
      var s := Samples(init);
      ReportedSnoc(d, first, s, t.posted);
      ReportedSnoc(d, first, s + [t.posted], t.pushed);
    }
  }

  // No gap between ticks over which rates are reported sees the counter move.
  predicate GapsStandStill(d: Direction, first: Sample, ticks: seq<Tick>) {
    forall k | 0 <= k < |ticks| ::
      var was := Before(first, ticks, k);
      Reported(was, ticks[k].posted) ==> Count(d, was) == Count(d, ticks[k].posted)
  }

  lemma GapsSnoc(d: Direction, first: Sample, ticks: seq<Tick>)
    requires ticks != []
    ensures var n := |ticks| - 1;
            GapsStandStill(d, first, ticks) <==>
              && GapsStandStill(d, first, ticks[..n])
              && (Reported(Before(first, ticks, n), ticks[n].posted) ==> Count(d, Before(first, ticks, n)) == Count(d, ticks[n].posted))
  {
    var n := |ticks| - 1;
    var init := ticks[..n];
    assert forall k | 0 <= k < n :: init[k] == ticks[k] && Before(first, init, k) == Before(first, ticks, k);
  }

  // The pushed rates stand for all that was measured exactly if nothing moves between ticks.
  lemma {:induction false} NothingDroppedIff(d: Direction, first: Sample, ticks: seq<Tick>)
    ensures DroppedBytes(d, first, ticks) >= 0.0
    ensures DroppedBytes(d, first, ticks) == 0.0 <==> GapsStandStill(d, first, ticks)
    ensures ReportedBytes(d, first, Samples(ticks)) == PushedBytes(d, ticks) <==> GapsStandStill(d, first, ticks)
  {
    PushesCoverTicksOnly(d, first, ticks);
    if ticks != [] {
      var n := |ticks| - 1;
      NothingDroppedIff(d, first, ticks[..n]);
      BytesAreExact(d, Before(first, ticks, n), ticks[n].posted);
      GapsSnoc(d, first, ticks);
    }
  }

  // ---- Pushes against the counter itself -----------------------------------------------------

  // By how much the counter moves in all, a fall being a wrap-around.
  function Movement(d: Direction, first: Sample, ticks: seq<Tick>): nat {
    if ticks == [] then 0
    else
      var n := |ticks| - 1;
      Movement(d, first, ticks[..n]) + MovementIn(d, Before(first, ticks, n), ticks[n])
  }

  function MovementIn(d: Direction, was: Sample, t: Tick): nat {
    Minus(Count(d, t.posted), Count(d, was)) + Minus(Count(d, t.pushed), Count(d, t.posted))
  }

  predicate Rises(d: Direction, was: Sample, t: Tick) { Count(d, was) <= Count(d, t.posted) <= Count(d, t.pushed) }

  predicate NeverFalls(d: Direction, first: Sample, ticks: seq<Tick>) {
    forall k | 0 <= k < |ticks| :: Rises(d, Before(first, ticks, k), ticks[k])
  }

  predicate MovesInside(d: Direction, was: Sample, t: Tick) {
    && Count(d, was) == Count(d, t.posted)
    && (Reported(t.posted, t.pushed) || Count(d, t.posted) == Count(d, t.pushed))
  }

  // The counter moves only within ticks, and only within those that report.
  predicate MovesInTicks(d: Direction, first: Sample, ticks: seq<Tick>) {
    forall k | 0 <= k < |ticks| :: MovesInside(d, Before(first, ticks, k), ticks[k])
  }

  lemma TicksSnoc(d: Direction, first: Sample, ticks: seq<Tick>)
    requires ticks != []
    ensures var n := |ticks| - 1;
            var was := Before(first, ticks, n);
            && Before(first, ticks[..n], n) == was
            && (NeverFalls(d, first, ticks) ==> NeverFalls(d, first, ticks[..n]) && Rises(d, was, ticks[n]))
            && (MovesInTicks(d, first, ticks) <==> MovesInTicks(d, first, ticks[..n]) && MovesInside(d, was, ticks[n]))
  {
    var n := |ticks| - 1;
    var init := ticks[..n];
    assert forall k | 0 <= k < n :: init[k] == ticks[k] && Before(first, init, k) == Before(first, ticks, k);
  }

  lemma TickAccounts(d: Direction, was: Sample, t: Tick)
    ensures Bytes(d, t.posted, t.pushed) <= MovementIn(d, was, t) as real
    ensures Bytes(d, t.posted, t.pushed) == MovementIn(d, was, t) as real <==> MovesInside(d, was, t)
  {
    BytesAreExact(d, t.posted, t.pushed);
  }

  // The pushed rates account for at most the movement of the counter, and for all of it exactly if
  // it moves within reporting ticks only.
  lemma {:induction false} PushesAccountIff(d: Direction, first: Sample, ticks: seq<Tick>)
    ensures PushedBytes(d, ticks) <= Movement(d, first, ticks) as real
    ensures PushedBytes(d, ticks) == Movement(d, first, ticks) as real <==> MovesInTicks(d, first, ticks)
  {
    if ticks != [] {
      var n := |ticks| - 1;
      TicksSnoc(d, first, ticks);
      PushesAccountIff(d, first, ticks[..n]);
      TickAccounts(d, Before(first, ticks, n), ticks[n]);
    }
  }

  // As long as it never falls, that is its growth from the first sample to the last.
  lemma {:induction false} MovementIsGrowth(d: Direction, first: Sample, ticks: seq<Tick>)
    requires NeverFalls(d, first, ticks)
    ensures Movement(d, first, ticks) == Count(d, Before(first, ticks, |ticks|)) - Count(d, first)
  {
    if ticks != [] {
      TicksSnoc(d, first, ticks);
      MovementIsGrowth(d, first, ticks[..|ticks| - 1]);
    }
  }

  lemma ReportedSnoc(d: Direction, first: Sample, s: seq<Sample>, x: Sample)
    ensures ReportedBytes(d, first, s + [x]) == ReportedBytes(d, first, s) + Bytes(d, LastOf(first, s), x)
  {
    assert (s + [x])[..|s|] == s;
  }
}
