/** The control state of the BBR-like sender, version 5: its round-trip estimates, modes and gains, and what an
    acknowledgement does to them. Times are in microseconds. */
module BbrControl {

  datatype Mode = Start | Drain | Increase | Decrease

  /** A time span that may still be unset. */
  datatype Delta = Micros(us: nat) | Infinity

  const GAIN_CYCLE_LENGTH: nat := 8
  const DRAIN_GAIN := 0.5
  const DECREASE_GAIN := 0.75
  const INITIAL_CONGESTION_WINDOW: nat := 10_000
  const MIN_RTT_EXPIRY: nat := 10_000_000
  const DEFAULT_MIN_RTT: nat := 200_000
  const ROUNDS_WITHOUT_GROWTH: nat := 3

  /** The control fields. `smooth` is the smoothed round trip and `base` its baseline; `lowRtt` is the least round trip
      of a back-off, `record` the one from before it, `target` what may be in flight in it. */
  datatype Control = Control(
    mode: Mode, gain: real, offset: nat, cycleStart: nat,
    minRtt: nat, minRttAt: nat, smooth: nat, base: Delta, baseAt: nat,
    seqAtBackoff: nat, lowRtt: Delta, lowRttAt: nat, record: nat, expired: bool, exitAt: nat, target: nat,
    full: bool, flatRounds: nat, bandwidth: nat)

  /** Before anything was sent. */
  const INITIAL := Control(Start, 2.0, 0, 0, 0, 0, 0, Infinity, 0, 0, Infinity, 0, 0, false, 0, 0, false, 0, 0)

  function PacingGain(offset: nat): real {
    if offset == 0 then 1.11 else if offset == 1 then 0.9 else 1.0
  }

  /** The gain that goes with a mode. */
  function GainOf(mode: Mode, offset: nat): real {
    match mode
    case Start => 2.0
    case Drain => 0.5
    case Increase => PacingGain(offset)
    case Decrease => 0.75
  }

  /** The smoothed round trip after a sample, in whole milliseconds. */
  function SmoothedRtt(s: nat, rtt: nat): nat {
    if s == 0 then rtt else (5 * (s / 1000) + 95 * (rtt / 1000)) / 100 * 1000
  }

  /** Nineteen parts of the sample and one of what it was before, rounded down to whole milliseconds. */
  lemma SmoothedIsMean(s: nat, rtt: nat)
    ensures s == 0 ==> SmoothedRtt(s, rtt) == rtt
    ensures s > 0 ==>
              var ms := SmoothedRtt(s, rtt) / 1000;
              SmoothedRtt(s, rtt) == 1000 * ms && 20 * ms <= s / 1000 + 19 * (rtt / 1000) < 20 * ms + 20
  {
  }

  function MinRttOf(minRtt: nat): nat {
    if minRtt != 0 then minRtt else DEFAULT_MIN_RTT
  }

  /** The bandwidth-delay product in bytes, or the initial window before there is one. */
  function Window(minRtt: nat, bandwidth: nat): nat {
    var window := MinRttOf(minRtt) * bandwidth / 8_000_000;
    if window == 0 then INITIAL_CONGESTION_WINDOW else window
  }

  /** What the bandwidth, in bit/s, brings in a minimum round trip, in whole bytes; 10 packets if that is nothing.
      A minimum round trip not yet known counts as 200 ms. */
  lemma WindowIsProduct(minRtt: nat, bandwidth: nat)
    ensures var bits := (if minRtt == 0 then 200_000 else minRtt) * bandwidth;
            if bits < 8_000_000 then Window(minRtt, bandwidth) == 10_000
            else Window(minRtt, bandwidth) * 8_000_000 <= bits < (Window(minRtt, bandwidth) + 1) * 8_000_000
  {
  }

  // ---- measuring a round trip ----

  ghost predicate MinNoted(c: Control, d: Control, now: nat, rtt: nat) {
    && d.minRtt == (if c.minRtt == 0 || rtt < c.minRtt then rtt else c.minRtt)
    && d.minRttAt == (if c.minRtt == 0 || rtt < c.minRtt || (rtt > d.minRtt && 8 * rtt <= 9 * d.minRtt) then now
                      else c.minRttAt)
  }

  ghost predicate LowNoted(c: Control, d: Control, now: nat, rtt: nat) {
    if c.mode.Decrease? && (c.lowRtt.Infinity? || rtt <= c.lowRtt.us)
    then d.lowRtt == Micros(rtt) && d.lowRttAt == now
    else d.lowRtt == c.lowRtt && d.lowRttAt == c.lowRttAt
  }

  ghost predicate BaseNoted(c: Control, d: Control, now: nat, n: nat, rtt: nat) {
    if c.mode.Increase? && n > c.seqAtBackoff then
      var lower := c.base.Infinity? || rtt < c.base.us;
      && d.base == (if lower then Micros(rtt) else c.base)
      && d.baseAt == (if lower then now else c.baseAt)
      && d.smooth == SmoothedRtt(if lower then rtt else c.smooth, rtt)
    else
      d.base == c.base && d.baseAt == c.baseAt && d.smooth == c.smooth
  }

  /** The packet numbered n has measured a round trip. */
  ghost predicate Measured(c: Control, d: Control, now: nat, n: nat, rtt: nat) {
    && MinNoted(c, d, now, rtt) && LowNoted(c, d, now, rtt) && BaseNoted(c, d, now, n, rtt)
    && d == c.(minRtt := d.minRtt, minRttAt := d.minRttAt, lowRtt := d.lowRtt, lowRttAt := d.lowRttAt,
               base := d.base, baseAt := d.baseAt, smooth := d.smooth)
  }

  // ---- the mode machine ----

  /** The smoothed round trip is more than 1.2 times the baseline. */
  ghost predicate Congested(c: Control) {
    c.mode.Increase? && c.base.Micros? && 10 * c.smooth > 12 * c.base.us
  }

  ghost predicate Expired(c: Control, now: nat) {
    now > c.minRttAt + 10_000_000
  }

  /** A back-off begins. */
  ghost predicate BackoffEntered(c: Control, d: Control, expired: bool, lastSent: nat, bandwidth: nat) {
    d == c.(mode := Decrease, gain := 0.75, seqAtBackoff := lastSent, smooth := 0, base := Infinity,
            record := c.minRtt, exitAt := 0, lowRtt := Infinity, target := Window(c.minRtt, bandwidth),
            expired := expired)
  }

  /** A stay in INCREASE begins, in any phase but 1. */
  ghost predicate IncreaseEntered(c: Control, d: Control, now: nat, rand: nat) {
    && d.offset == (if rand % 7 == 0 then 0 else rand % 7 + 1)
    && d == c.(mode := Increase, offset := d.offset, cycleStart := now, gain := PacingGain(d.offset))
  }

  /** Since when a back-off may end. */
  ghost function ExitSince(c: Control, now: nat): nat {
    if c.exitAt == 0 then now else c.exitAt
  }

  /** The excess is drained, or a probe for the minimum round trip has lasted long enough. */
  ghost predicate BackoffOver(c: Control, now: nat, inFlight: nat) {
    (c.expired && now - ExitSince(c, now) > 4 * c.record) || inFlight <= c.target
  }

  /** Leaving a probe restores a minimum round trip: the least seen in it, or the one from before. */
  ghost predicate MinRestored(c: Control, d: Control, now: nat) {
    if !c.expired then d == c.(exitAt := ExitSince(c, now))
    else if c.lowRtt.Infinity? then
      d == c.(exitAt := ExitSince(c, now), expired := false, minRtt := c.record, minRttAt := now)
    else
      d == c.(exitAt := ExitSince(c, now), expired := false, minRtt := c.lowRtt.us, minRttAt := c.lowRttAt)
  }

  ghost predicate BackoffLeft(c: Control, restored: Control, d: Control, now: nat, inFlight: nat, rand: nat) {
    if BackoffOver(c, now, inFlight) then MinRestored(c, restored, now) && IncreaseEntered(restored, d, now, rand)
    else d == c.(exitAt := ExitSince(c, now))
  }

  /** A round in which the bandwidth grew by a quarter, or not. */
  ghost predicate Grown(c: Control, d: Control, bandwidth: nat) {
    if 4 * bandwidth >= 5 * c.bandwidth then d == c.(bandwidth := bandwidth, flatRounds := 0)
    else d == c.(flatRounds := c.flatRounds + 1, full := c.full || c.flatRounds + 1 >= 3)
  }

  ghost predicate Drained(c: Control, d: Control) {
    d == if c.mode.Start? && c.full then c.(mode := Drain, gain := 0.5) else c
  }

  ghost predicate StartupLeft(c: Control, d: Control, now: nat, bandwidth: nat, inFlight: nat, rand: nat) {
    if c.mode.Drain? && inFlight <= Window(c.minRtt, bandwidth) then IncreaseEntered(c, d, now, rand) else d == c
  }

  ghost predicate Cycled(c: Control, d: Control, now: nat) {
    if c.mode.Increase? && now - c.cycleStart > MinRttOf(c.minRtt) then
      && d.offset == (if c.offset == 7 then 0 else c.offset + 1)
      && d == c.(offset := d.offset, cycleStart := now, gain := PacingGain(d.offset))
    else
      d == c
  }

  /** What an acknowledgement meets: the bandwidth estimate before and after its sample entered the filter, and the
      random number that picks a phase. */
  datatype Reading = Reading(now: nat, roundUpdate: bool, before: nat, after: nat, rand: nat, inFlight: nat,
                             lastSent: nat)

  /** The control states on the way through the mode machine. */
  datatype Path = Path(entered: Control, restored: Control, backed: Control, grown: Control, drained: Control,
                       started: Control)

  /** In and out of a back-off. */
  ghost predicate Backed(c: Control, entered: Control, restored: Control, d: Control, r: Reading) {
    && (if !c.mode.Decrease? && (Expired(c, r.now) || Congested(c))
        then BackoffEntered(c, entered, Expired(c, r.now), r.lastSent, r.before)
        else entered == c)
    && (if entered.mode.Decrease? then BackoffLeft(entered, restored, d, r.now, r.inFlight, r.rand)
        else d == entered)
  }

  ghost predicate BackedOff(c: Control, path: Path, r: Reading) {
    Backed(c, path.entered, path.restored, path.backed, r)
  }

  /** Past START and DRAIN. */
  ghost predicate Started(backed: Control, path: Path, r: Reading) {
    && (if r.roundUpdate && !backed.full then Grown(backed, path.grown, r.after) else path.grown == backed)
    && Drained(path.grown, path.drained)
    && StartupLeft(path.drained, path.started, r.now, r.after, r.inFlight, r.rand)
  }

  ghost predicate ModesTakenAfter(backed: Control, path: Path, d: Control, r: Reading) {
    Started(backed, path, r) && Cycled(path.started, d, r.now)
  }

  /** One way through the mode machine. */
  ghost predicate ModesTaken(c: Control, path: Path, d: Control, r: Reading) {
    BackedOff(c, path, r) && ModesTakenAfter(path.backed, path, d, r)
  }

  // ---- what every step keeps ----

  ghost predicate RttAboveBase(s: nat, base: Delta) {
    base.Micros? ==> s / 1000 >= base.us / 1000
  }

  /** The gain is the one that goes with the mode; the smoothed round trip stays at
      or above the baseline, in whole milliseconds. */
  ghost predicate Steady(c: Control) {
    && c.gain == GainOf(c.mode, c.offset)
    && c.offset < 8
    && RttAboveBase(c.smooth, c.base)
  }

  /** START sends at twice the rate and DRAIN at half of it, so that it undoes START; of the phases of INCREASE only the
      first two differ from the rate, and a back-off sends at three quarters of it. */
  lemma SteadyGain(c: Control)
    requires Steady(c)
    ensures c.mode.Start? <==> c.gain == 2.0
    ensures c.mode.Drain? <==> 2.0 * c.gain == 1.0
    ensures c.mode.Decrease? <==> 4.0 * c.gain == 3.0
    ensures c.mode.Increase? ==> (c.offset == 0 <==> 100.0 * c.gain == 111.0)
                                 && (c.offset == 1 <==> 10.0 * c.gain == 9.0)
                                 && (c.offset > 1 <==> c.gain == 1.0)
  {
  }

  lemma HundredParts(a: nat, b: nat, m: nat)
    requires a >= m && b >= m
    ensures (5 * a + 95 * b) / 100 >= m
  {
  }

  lemma Thousandths(ms: nat)
    ensures ms * 1000 / 1000 == ms
  {
  }

  /** A mean of two round trips at or above the baseline, in whole milliseconds, is so too. */
  lemma SmoothStays(s: nat, rtt: nat, base: nat)
    requires s / 1000 >= base / 1000 && rtt / 1000 >= base / 1000
    ensures SmoothedRtt(s, rtt) / 1000 >= base / 1000
  {
    HundredParts(s / 1000, rtt / 1000, base / 1000);
    Thousandths((5 * (s / 1000) + 95 * (rtt / 1000)) / 100);
  }

  lemma MeasuredSteady(c: Control, d: Control, now: nat, n: nat, rtt: nat)
    requires Steady(c) && Measured(c, d, now, n, rtt)
    ensures Steady(d)
  {
    if c.mode.Increase? && n > c.seqAtBackoff {
      if c.base.Infinity? || rtt < c.base.us {
        SmoothStays(rtt, rtt, rtt);
      } else {
        SmoothStays(c.smooth, rtt, c.base.us);
      }
    }
  }

  lemma BackedSteady(c: Control, path: Path, r: Reading)
    requires Steady(c) && BackedOff(c, path, r)
    ensures Steady(path.backed)
  {
    assert Steady(path.entered);
  }

  lemma GrownSteady(c: Control, d: Control, bandwidth: nat)
    requires Steady(c) && Grown(c, d, bandwidth)
    ensures Steady(d)
  {
  }

  lemma StartedSteady(c: Control, drained: Control, d: Control, r: Reading)
    requires Steady(c) && Drained(c, drained)
    requires StartupLeft(drained, d, r.now, r.after, r.inFlight, r.rand)
    ensures Steady(d)
  {
    assert Steady(drained);
  }

  lemma CycledSteady(c: Control, d: Control, now: nat)
    requires Steady(c) && Cycled(c, d, now)
    ensures Steady(d)
  {
  }

  /** On the way the phases stay within the cycle. */
  lemma StartedBounded(c: Control, path: Path, r: Reading)
    requires Steady(c) && BackedOff(c, path, r) && Started(path.backed, path, r)
    ensures Steady(path.started)
  {
    BackedSteady(c, path, r);
    if r.roundUpdate && !path.backed.full {
      GrownSteady(path.backed, path.grown, r.after);
    }
    StartedSteady(path.grown, path.drained, path.started, r);
  }

  lemma ModesSteady(c: Control, path: Path, d: Control, r: Reading)
    requires Steady(c) && ModesTaken(c, path, d, r)
    ensures Steady(d)
  {
    StartedBounded(c, path, r);
    CycledSteady(path.started, d, r.now);
  }

  /** What one acknowledgement may do to the mode and the phase of the gain cycle. */
  ghost predicate ModeStep(mode: Mode, offset: nat, mode': Mode, offset': nat) {
    && (mode'.Start? ==> mode.Start?)
    && (mode'.Drain? ==> mode.Start? || mode.Drain?)
    && (mode'.Increase? && offset' == 1 ==> mode.Increase? && (offset == 0 || offset == 1))
  }

  lemma RestStep(c: Control, path: Path, d: Control, r: Reading)
    requires ModesTakenAfter(c, path, d, r)
    ensures d.mode == c.mode || d.mode.Increase? || (d.mode.Drain? && c.mode.Start?)
    ensures d.mode.Increase? && d.offset == 1 ==>
              c.mode.Increase? && (c.offset == 1 || (c.offset == 0 && r.now - c.cycleStart > 0))
  {
  }

  lemma ModesStep(c: Control, path: Path, d: Control, r: Reading)
    requires ModesTaken(c, path, d, r)
    ensures ModeStep(c.mode, c.offset, d.mode, d.offset)
  {
    BackedStep(c, path, r);
    RestStep(path.backed, path, d, r);
  }

  lemma BackedStep(c: Control, path: Path, r: Reading)
    requires BackedOff(c, path, r)
    ensures path.backed.mode == c.mode || path.backed.mode.Decrease? || path.backed.mode.Increase?
    ensures c.mode.Decrease? || path.entered.mode.Decrease? ==>
              path.backed.mode.Decrease? || (path.backed.mode.Increase? && path.backed.offset != 1
                                             && path.backed.cycleStart == r.now)
    ensures !c.mode.Decrease? && !path.entered.mode.Decrease? ==> path.backed == c
  {
  }

  /** Whether an acknowledgement finds or puts the sender in a back-off. */
  ghost predicate InBackoff(c: Control, r: Reading) {
    c.mode.Decrease? || Expired(c, r.now) || Congested(c)
  }

  /** The back-off in force: a new one may be left at once if no more is in flight than its target, as a probe has not
      lasted at all. */
  ghost predicate OverAtOnce(c: Control, r: Reading) {
    if c.mode.Decrease? then BackoffOver(c, r.now, r.inFlight) else r.inFlight <= Window(c.minRtt, r.before)
  }

  /** The bandwidth has stopped growing, by this acknowledgement or before. */
  ghost predicate FullNow(c: Control, r: Reading) {
    c.full || (r.roundUpdate && 4 * r.after < 5 * c.bandwidth && c.flatRounds + 1 >= 3)
  }

  lemma BackedEnd(c: Control, path: Path, r: Reading)
    requires BackedOff(c, path, r)
    ensures InBackoff(c, r) ==> path.backed.mode == if OverAtOnce(c, r) then Increase else Decrease
    ensures !InBackoff(c, r) ==> path.backed == c
    ensures path.backed.full == c.full && path.backed.bandwidth == c.bandwidth
    ensures path.backed.flatRounds == c.flatRounds
  {
  }

  /** The mode that an acknowledgement ends in. */
  lemma ModesEnd(c: Control, path: Path, d: Control, r: Reading)
    requires ModesTaken(c, path, d, r)
    ensures d.full <==> FullNow(c, r)
    ensures d.mode == if InBackoff(c, r) then if OverAtOnce(c, r) then Increase else Decrease
                      else if c.mode.Increase? || (c.mode.Start? && !FullNow(c, r)) then c.mode
                      else if r.inFlight <= Window(c.minRtt, r.after) then Increase
                      else Drain
  {
    BackedEnd(c, path, r);
    RestEnd(path.backed, path, d, r);
  }

  lemma RestEnd(c: Control, path: Path, d: Control, r: Reading)
    requires path.backed == c && ModesTakenAfter(c, path, d, r)
    ensures d.full <==> FullNow(c, r)
    ensures d.mode == if c.mode.Increase? || c.mode.Decrease? || (c.mode.Start? && !FullNow(c, r)) then c.mode
                      else if r.inFlight <= Window(c.minRtt, r.after) then Increase
                      else Drain
  {
  }

  datatype Phase = Phase(mode: Mode, offset: nat)

  ghost predicate ModeRun(run: seq<Phase>) {
    forall k :: 1 <= k < |run| ==> ModeStep(run[k - 1].mode, run[k - 1].offset, run[k].mode, run[k].offset)
  }

  /** START is never entered again. */
  lemma {:induction false} StartOnlyAtTheStart(run: seq<Phase>, j: nat, k: nat)
    requires ModeRun(run) && j <= k < |run| && run[k].mode.Start?
    ensures run[j].mode.Start?
    decreases k
  {
    if j < k {
      StartOnlyAtTheStart(run, j, k - 1);
    }
  }

  /** Everything before a DRAIN phase is START or DRAIN. */
  lemma {:induction false} DrainOnlyAfterStart(run: seq<Phase>, j: nat, k: nat)
    requires ModeRun(run) && j <= k < |run| && (run[k].mode.Drain? || run[k].mode.Start?)
    ensures run[j].mode.Start? || run[j].mode.Drain?
    decreases k
  {
    if j < k {
      DrainOnlyAfterStart(run, j, k - 1);
    }
  }

  /** The 0.9 phase directly follows the 1.11 phase: going back from it through
      nothing but itself, one meets phase 0 of the same stay in INCREASE. */
  lemma {:induction false} LowPhaseFollowsHigh(run: seq<Phase>, k: nat) returns (j: nat)
    requires ModeRun(run) && k < |run| && run[k] == Phase(Increase, 1)
    requires run[0].mode.Start?
    ensures j < k && run[j] == Phase(Increase, 0)
    ensures forall i :: j < i <= k ==> run[i] == Phase(Increase, 1)
    decreases k
  {
    assert k > 0;
    j := k - 1;
    if run[k - 1].offset == 1 {
      j := LowPhaseFollowsHigh(run, k - 1);
    }
  }
}
