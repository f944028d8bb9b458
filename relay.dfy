/** The relay decision engine of checkAndControlRelay (esp.cpp): a rate-limited sensor read,
    peak tracking, an asymmetric ON/OFF rule with a hold band, and a 60 s debounce before a
    new relay state is committed. State is carried explicitly from one step to the next. */
module Relay {
  import opened Wrappers
  import opened Clock

  /** Arduino's pin levels, as stored in `last_stable_state`. */
  const LOW: int := 0
  const HIGH: int := 1

  /** checkAndControlRelay reads the sensor at most once per this many milliseconds. */
  const READ_INTERVAL_MS: int := 2000
  /** `debounce_delay_ms`: how long a new desired state must persist before it is committed. */
  const DEBOUNCE_DELAY_MS: int := 60000

  /** Bus voltage (V), current (mA) and power (mW) as the INA219 reports them. */
  datatype Reading = Reading(voltage: real, current: real, power: real)

  /** The three operator-set thresholds. */
  datatype Thresholds = Thresholds(vLowCutoff: real, vHighOn: real, cOnMa: real)

  /** `peak_v`, `peak_c`, `peak_p`. */
  datatype Peaks = Peaks(v: real, c: real, p: real)

  const ZERO_PEAKS: Peaks := Peaks(0.0, 0.0, 0.0)

  /** The globals the relay step reads and writes; 0 in `debounceStart` means "no timer". */
  datatype RelayState = RelayState(lastStable: int, debounceStart: Millis, lastRead: Millis, peaks: Peaks)

  /** The inputs of one call: the clock, whether the sensor was found at boot, and the values
      the sensor returns if it is read. */
  datatype Sample = Sample(now: Millis, sensorFound: bool, reading: Reading)

  /** The result of one call: the new state, whether the sensor was read (one activate and one
      power-down write on the bus), and the level written to the relay pin on a commit. */
  datatype Tick = Tick(state: RelayState, read: bool, commit: Option<int>)

  /** Every peak of `q` is at least the corresponding peak of `p`. */
  predicate Dominates(q: Peaks, p: Peaks) {
    q.v >= p.v && q.c >= p.c && q.p >= p.p
  }

  /** `if (x > peak) peak = x;` */
  function Raised(peak: real, x: real): (m: real)
    ensures m >= peak && m >= x
    ensures m == peak || m == x
  {
    if x > peak then x else peak
  }

  /** The peaks after one reading: each the larger of the old peak and the new value. */
  function RecordPeaks(pk: Peaks, r: Reading): (q: Peaks)
    ensures Dominates(q, pk)
    ensures q.v >= r.voltage && q.c >= r.current && q.p >= r.power
    ensures (q.v == pk.v || q.v == r.voltage) && (q.c == pk.c || q.c == r.current) && (q.p == pk.p || q.p == r.power)
  {
    Peaks(Raised(pk.v, r.voltage), Raised(pk.c, r.current), Raised(pk.p, r.power))
  }

  /** The switch-on condition: enough voltage AND enough current. */
  predicate OnCondition(r: Reading, cfg: Thresholds) {
    r.voltage >= cfg.vHighOn && r.current >= cfg.cOnMa
  }

  /** The state the reading asks for: HIGH on the ON condition, otherwise LOW at or below the
      cutoff, otherwise (the hold band) whatever is committed. */
  function DesiredState(r: Reading, cfg: Thresholds, lastStable: int): (d: int)
    ensures OnCondition(r, cfg) ==> d == HIGH
    ensures !OnCondition(r, cfg) && r.voltage <= cfg.vLowCutoff ==> d == LOW
    ensures !OnCondition(r, cfg) && r.voltage > cfg.vLowCutoff ==> d == lastStable
    ensures d != lastStable ==> d == HIGH || d == LOW
  {
    if OnCondition(r, cfg) then HIGH
    else if r.voltage <= cfg.vLowCutoff then LOW
    else lastStable
  }

  /** An independent reading of the rule that tests the OFF condition first. */
  function DesiredOffFirst(r: Reading, cfg: Thresholds, lastStable: int): int {
    if r.voltage <= cfg.vLowCutoff then LOW
    else if OnCondition(r, cfg) then HIGH
    else lastStable
  }

  /** With a proper band (cutoff below the ON voltage) the ON and OFF conditions exclude each
      other, so the order in which they are tested does not matter. */
  lemma OrderIrrelevantWithProperBand(r: Reading, cfg: Thresholds, lastStable: int)
    requires cfg.vLowCutoff < cfg.vHighOn
    ensures DesiredState(r, cfg, lastStable) == DesiredOffFirst(r, cfg, lastStable)
  {
  }

  /** With an inverted band the ON test wins: a reading that meets both conditions asks for
      HIGH, where testing OFF first would ask for LOW. Nothing fails. */
  lemma OnWinsWithInvertedBand(r: Reading, cfg: Thresholds, lastStable: int)
    requires cfg.vHighOn <= r.voltage <= cfg.vLowCutoff && r.current >= cfg.cOnMa
    ensures DesiredState(r, cfg, lastStable) == HIGH
    ensures DesiredOffFirst(r, cfg, lastStable) == LOW
  {
  }

  /** Asking again with the desired state committed asks for the same state: the rule has no
      oscillation of its own. */
  lemma DesiredStateIsStable(r: Reading, cfg: Thresholds, lastStable: int)
    ensures DesiredState(r, cfg, DesiredState(r, cfg, lastStable)) == DesiredState(r, cfg, lastStable)
  {
  }

  /** One call of checkAndControlRelay. */
  function Step(s: RelayState, cfg: Thresholds, x: Sample): (t: Tick)
    // rate limit: within 2 s of the last read nothing at all changes
    ensures Elapsed(x.now, s.lastRead) < READ_INTERVAL_MS ==> t == Tick(s, false, None)
    ensures Elapsed(x.now, s.lastRead) >= READ_INTERVAL_MS ==> t.state.lastRead == x.now
    // the sensor is read only when the interval has passed and the sensor is present
    ensures t.read <==> Elapsed(x.now, s.lastRead) >= READ_INTERVAL_MS && x.sensorFound
    ensures !t.read ==> t.commit.None? && t.state == s.(lastRead := t.state.lastRead)
    ensures t.read ==> t.state.peaks == RecordPeaks(s.peaks, x.reading)
    // a commit needs a different desired state and a timer set at least 60 s earlier
    ensures t.commit.Some? <==>
      t.read && DesiredState(x.reading, cfg, s.lastStable) != s.lastStable &&
      s.debounceStart != 0 && Elapsed(x.now, s.debounceStart) >= DEBOUNCE_DELAY_MS
    ensures t.commit.Some? ==>
      t.commit.value == t.state.lastStable == DesiredState(x.reading, cfg, s.lastStable) &&
      t.state.lastStable != s.lastStable && t.state.debounceStart == 0
    ensures t.commit.None? ==> t.state.lastStable == s.lastStable
    // agreement clears the timer; a pending disagreement starts it or keeps it running
    ensures t.read && DesiredState(x.reading, cfg, s.lastStable) == s.lastStable ==> t.state.debounceStart == 0
    ensures t.read && t.commit.None? && DesiredState(x.reading, cfg, s.lastStable) != s.lastStable ==>
      t.state.debounceStart == if s.debounceStart == 0 then x.now else s.debounceStart
  {
    if Elapsed(x.now, s.lastRead) < READ_INTERVAL_MS then Tick(s, false, None)
    else if !x.sensorFound then Tick(s.(lastRead := x.now), false, None)
    else
      var peaks := RecordPeaks(s.peaks, x.reading);
      var desired := DesiredState(x.reading, cfg, s.lastStable);
      if desired != s.lastStable then
        var start := if s.debounceStart == 0 then x.now else s.debounceStart;
        if Elapsed(x.now, start) >= DEBOUNCE_DELAY_MS then
          Tick(RelayState(desired, 0, x.now, peaks), true, Some(desired))
        else
          Tick(RelayState(s.lastStable, start, x.now, peaks), true, None)
      else
        Tick(RelayState(s.lastStable, 0, x.now, peaks), true, None)
  }

  /** The state after a series of calls, one per sample, oldest first. */
  function Run(s: RelayState, cfg: Thresholds, samples: seq<Sample>): RelayState
    decreases |samples|
  {
    if samples == [] then s else Run(Step(s, cfg, samples[0]).state, cfg, samples[1..])
  }

  /** How many of those calls committed a new relay state. */
  function CommitCount(s: RelayState, cfg: Thresholds, samples: seq<Sample>): nat
    decreases |samples|
  {
    if samples == [] then 0
    else
      var t := Step(s, cfg, samples[0]);
      (if t.commit.Some? then 1 else 0) + CommitCount(t.state, cfg, samples[1..])
  }

  /** Peaks never decrease over any series of calls. */
  lemma {:induction false} PeaksNeverDecrease(s: RelayState, cfg: Thresholds, samples: seq<Sample>)
    ensures Dominates(Run(s, cfg, samples).peaks, s.peaks)
    decreases |samples|
  {
    if samples != [] {
      PeaksNeverDecrease(Step(s, cfg, samples[0]).state, cfg, samples[1..]);
    }
  }

  /** The samples arrive in clock order after `last`, all less than the debounce delay after
      `base` (distances measured in wrapping milliseconds). */
  predicate Paced(base: Millis, last: Millis, samples: seq<Sample>)
    decreases |samples|
  {
    samples == [] ||
    (Elapsed(last, base) <= Elapsed(samples[0].now, base) < DEBOUNCE_DELAY_MS &&
     Paced(base, samples[0].now, samples[1..]))
  }

  /** If the debounce timer is unset or was started no earlier than `base`, no call made less
      than 60 s after `base` commits, and the committed state is unchanged. */
  lemma {:induction false} NoCommitWithinDebounce(s: RelayState, cfg: Thresholds, base: Millis, last: Millis, samples: seq<Sample>)
    requires s.debounceStart == 0 || Elapsed(s.debounceStart, base) <= Elapsed(last, base)
    requires Paced(base, last, samples)
    ensures CommitCount(s, cfg, samples) == 0
    ensures Run(s, cfg, samples).lastStable == s.lastStable
    decreases |samples|
  {
    if samples != [] {
      var now := samples[0].now;
      if s.debounceStart != 0 {
        ElapsedSplit(now, s.debounceStart, base);
      }
      NoCommitWithinDebounce(Step(s, cfg, samples[0]).state, cfg, base, now, samples[1..]);
    }
  }

  /** An excursion that starts with no timer running and lasts less than the debounce delay
      never moves the relay, whatever the readings were. */
  lemma ShortExcursionNeverCommits(s: RelayState, cfg: Thresholds, samples: seq<Sample>)
    requires s.debounceStart == 0
    requires samples != [] && Paced(samples[0].now, samples[0].now, samples)
    ensures CommitCount(s, cfg, samples) == 0
    ensures Run(s, cfg, samples).lastStable == s.lastStable
  {
    NoCommitWithinDebounce(s, cfg, samples[0].now, samples[0].now, samples);
  }

  /** The reading asks for `level` whatever is committed: the ON condition for HIGH, or the
      cutoff without the ON condition for LOW. */
  predicate Forces(r: Reading, cfg: Thresholds, level: int) {
    (level == HIGH && OnCondition(r, cfg)) ||
    (level == LOW && !OnCondition(r, cfg) && r.voltage <= cfg.vLowCutoff)
  }

  /** While the readings keep asking for the committed level, nothing is committed. */
  lemma {:induction false} HeldLevelNeverCommits(s: RelayState, cfg: Thresholds, level: int, samples: seq<Sample>)
    requires s.lastStable == level
    requires forall i :: 0 <= i < |samples| ==> Forces(samples[i].reading, cfg, level)
    ensures CommitCount(s, cfg, samples) == 0
    ensures Run(s, cfg, samples).lastStable == level
    decreases |samples|
  {
    if samples != [] {
      HeldLevelNeverCommits(Step(s, cfg, samples[0]).state, cfg, level, samples[1..]);
    }
  }

  /** A condition held throughout a series of calls commits at most once, and if it commits,
      it commits the level it asks for. */
  lemma {:induction false} SustainedConditionCommitsAtMostOnce(s: RelayState, cfg: Thresholds, level: int, samples: seq<Sample>)
    requires forall i :: 0 <= i < |samples| ==> Forces(samples[i].reading, cfg, level)
    ensures CommitCount(s, cfg, samples) <= 1
    ensures CommitCount(s, cfg, samples) == 1 ==> Run(s, cfg, samples).lastStable == level
    decreases |samples|
  {
    if samples != [] {
      var t := Step(s, cfg, samples[0]);
      if t.commit.Some? {
        HeldLevelNeverCommits(t.state, cfg, level, samples[1..]);
      } else {
        SustainedConditionCommitsAtMostOnce(t.state, cfg, level, samples[1..]);
      }
    }
  }

  /** Every sample is read: the sensor is present and each sample comes at least the read
      interval after the previous read, the first one after `last`. */
  predicate AllRead(last: Millis, samples: seq<Sample>)
    decreases |samples|
  {
    samples == [] ||
    (samples[0].sensorFound && Elapsed(samples[0].now, last) >= READ_INTERVAL_MS &&
     AllRead(samples[0].now, samples[1..]))
  }

  /** With the timer already running from `start` against a condition that every reading keeps
      forcing, a run whose last read is at least 60 s after `start` commits exactly once. */
  lemma {:induction false} PendingTimerCommitsOnce(s: RelayState, cfg: Thresholds, level: int, start: Millis, samples: seq<Sample>)
    requires s.lastStable != level && s.debounceStart == start && start != 0
    requires samples != [] && AllRead(s.lastRead, samples)
    requires forall i :: 0 <= i < |samples| ==> Forces(samples[i].reading, cfg, level)
    requires Elapsed(samples[|samples| - 1].now, start) >= DEBOUNCE_DELAY_MS
    ensures CommitCount(s, cfg, samples) == 1
    ensures Run(s, cfg, samples).lastStable == level
    decreases |samples|
  {
    var t := Step(s, cfg, samples[0]);
    if t.commit.Some? {
      HeldLevelNeverCommits(t.state, cfg, level, samples[1..]);
    } else {
      PendingTimerCommitsOnce(t.state, cfg, level, start, samples[1..]);
    }
  }

  /** A condition that forces a new level and is read continuously from a first read at a
      nonzero clock value until at least 60 s later commits exactly once, to that level. A
      first read at `millis() == 0` would stamp the timer with the "unset" value 0. */
  lemma SustainedConditionCommitsOnce(s: RelayState, cfg: Thresholds, level: int, samples: seq<Sample>)
    requires s.debounceStart == 0 && s.lastStable != level
    requires samples != [] && samples[0].now != 0 && AllRead(s.lastRead, samples)
    requires forall i :: 0 <= i < |samples| ==> Forces(samples[i].reading, cfg, level)
    requires Elapsed(samples[|samples| - 1].now, samples[0].now) >= DEBOUNCE_DELAY_MS
    ensures CommitCount(s, cfg, samples) == 1
    ensures Run(s, cfg, samples).lastStable == level
  {
    var t := Step(s, cfg, samples[0]);
    PendingTimerCommitsOnce(t.state, cfg, level, samples[0].now, samples[1..]);
  }

  /** A first read at `millis() == 0` starts no timer, because 0 means "unset": a condition
      read then and again 60 s later has not committed after that second read. */
  lemma ExcursionFromClockZeroDelaysCommit(s: RelayState, cfg: Thresholds, level: int, x: Sample, y: Sample)
    requires s.debounceStart == 0 && s.lastStable != level
    requires x.now == 0 && x.sensorFound && Elapsed(x.now, s.lastRead) >= READ_INTERVAL_MS
    requires y.sensorFound && Elapsed(y.now, x.now) >= READ_INTERVAL_MS
    requires Forces(x.reading, cfg, level) && Forces(y.reading, cfg, level)
    ensures CommitCount(s, cfg, [x, y]) == 0
    ensures Run(s, cfg, [x, y]).debounceStart == y.now
  {
    var t := Step(s, cfg, x);
    assert t.state.debounceStart == 0 && t.commit.None?;
    assert [x, y][1..] == [y] && [y][1..] == [];
    var u := Step(t.state, cfg, y);
    assert u.state.debounceStart == y.now && u.commit.None?;
    assert Run(t.state, cfg, [y]) == u.state && CommitCount(t.state, cfg, [y]) == 0;
  }

  /** handleToggle's effect on the decision state: the committed level is overwritten, and the
      debounce timer is left as it was. */
  function Override(s: RelayState, level: int): (o: RelayState)
    ensures o.lastStable == level
    ensures o.debounceStart == s.debounceStart && o.lastRead == s.lastRead && o.peaks == s.peaks
  {
    s.(lastStable := level)
  }

  /** handleResetPeaks' effect on the decision state. */
  function ResetPeaks(s: RelayState): (o: RelayState)
    ensures o.peaks == ZERO_PEAKS
    ensures o.lastStable == s.lastStable && o.debounceStart == s.debounceStart && o.lastRead == s.lastRead
  {
    s.(peaks := ZERO_PEAKS)
  }

  /** The other of the two relay levels. */
  function Opposite(level: int): (o: int)
    requires level == HIGH || level == LOW
    ensures (o == HIGH || o == LOW) && o != level
  {
    if level == HIGH then LOW else HIGH
  }

  /** Because the override keeps the timer, a timer left running by an excursion before the
      override lets the very next reading that disagrees with the operator commit at once,
      without a fresh debounce period. */
  lemma OverrideKeepsStaleTimer(s: RelayState, cfg: Thresholds, level: int, x: Sample)
    requires s.debounceStart != 0 && Elapsed(x.now, s.debounceStart) >= DEBOUNCE_DELAY_MS
    requires Elapsed(x.now, s.lastRead) >= READ_INTERVAL_MS && x.sensorFound
    requires (level == HIGH || level == LOW) && Forces(x.reading, cfg, Opposite(level))
    ensures Step(Override(s, level), cfg, x).commit == Some(Opposite(level))
  {
  }
}
