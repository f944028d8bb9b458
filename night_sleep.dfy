/** The night deep-sleep scheduler of enterDeepSleep (esp.cpp): after half an hour of night
    with the relay off, sleep until 08:00. Local time of day is an input; the clock offset has
    no daylight-saving part, so calendar arithmetic reduces to seconds of the day. */
module NightSleep {
  import opened Clock

  /** The scheduler runs at most once per this many milliseconds. */
  const CHECK_INTERVAL_MS: int := 10000
  /** Continuous night with the relay off required before sleeping (30 minutes). */
  const NIGHT_DWELL_MS: int := 1800000
  /** Night is from 19:00 until the wake time 08:00:00. */
  const NIGHT_START_HOUR: int := 19
  const WAKE_HOUR: int := 8
  const SECONDS_PER_DAY: int := 86400
  /** 08:00:00 as seconds of the day. */
  const WAKE_SECOND: int := 28800

  type Hour = h: int | 0 <= h < 24
  type Minute = m: int | 0 <= m < 60
  type Second = s: int | 0 <= s < 60

  /** The `tm_hour`, `tm_min`, `tm_sec` fields of the local time. */
  datatype TimeOfDay = TimeOfDay(hour: Hour, minute: Minute, second: Second)

  /** Seconds since local midnight. */
  function SecondOfDay(t: TimeOfDay): (n: int)
    ensures 0 <= n < SECONDS_PER_DAY
    ensures t.hour * 3600 <= n < (t.hour + 1) * 3600
  {
    t.hour * 3600 + t.minute * 60 + t.second
  }

  predicate IsNight(t: TimeOfDay) {
    t.hour >= NIGHT_START_HOUR || t.hour < WAKE_HOUR
  }

  /** `mktime(target) - mktime(now)`: the target is 08:00:00 on the next day from 19:00 on,
      08:00:00 on the same day otherwise. */
  function WakeDelay(t: TimeOfDay): (d: int)
    ensures IsNight(t) ==> 0 < d <= 46800
    ensures IsNight(t) ==> (SecondOfDay(t) + d) % SECONDS_PER_DAY == WAKE_SECOND
    ensures t.hour >= NIGHT_START_HOUR ==> SecondOfDay(t) + d == SECONDS_PER_DAY + WAKE_SECOND
    ensures t.hour < WAKE_HOUR ==> SecondOfDay(t) + d == WAKE_SECOND
  {
    var dayOffset := if t.hour >= NIGHT_START_HOUR then SECONDS_PER_DAY else 0;
    var target := dayOffset + WAKE_HOUR * 3600 + 0 * 60 + 0;
    target - SecondOfDay(t)
  }

  /** At night the delay reaches the NEXT 08:00:00: no earlier positive delay ends at 08:00. */
  lemma WakeDelayIsNext(t: TimeOfDay, e: int)
    requires IsNight(t) && 0 < e
    requires (SecondOfDay(t) + e) % SECONDS_PER_DAY == WAKE_SECOND
    ensures WakeDelay(t) <= e
  {
  }

  /** `off_start_time` (0 means "not running") and the static `last_sleep_check`. */
  datatype SleepState = SleepState(offStart: Millis, lastCheck: Millis)

  /** What the caller does next: nothing, or deep sleep for this many seconds. */
  datatype Decision = NoAction | SleepFor(seconds: int)

  /** The result of one call; `timerStarted` marks the call that logs the start of the
      night timer. */
  datatype Check = Check(state: SleepState, decision: Decision, timerStarted: bool)

  /** One call of enterDeepSleep. */
  function Evaluate(s: SleepState, now: Millis, synced: bool, t: TimeOfDay, relayHigh: bool): (c: Check)
    // rate limit: within 10 s of the last check nothing changes
    ensures Elapsed(now, s.lastCheck) < CHECK_INTERVAL_MS ==> c == Check(s, NoAction, false)
    ensures Elapsed(now, s.lastCheck) >= CHECK_INTERVAL_MS ==> c.state.lastCheck == now
    // without a synchronised clock the night timer is left alone and nothing happens
    ensures !synced ==> c.state.offStart == s.offStart && c.decision == NoAction && !c.timerStarted
    // day time or a relay that is on clears the night timer
    ensures Elapsed(now, s.lastCheck) >= CHECK_INTERVAL_MS && synced && !(IsNight(t) && !relayHigh) ==>
      c.state.offStart == 0 && c.decision == NoAction && !c.timerStarted
    // the first dark observation only starts the timer
    ensures c.timerStarted <==>
      Elapsed(now, s.lastCheck) >= CHECK_INTERVAL_MS && synced && IsNight(t) && !relayHigh && s.offStart == 0
    ensures c.timerStarted ==> c.state.offStart == now && c.decision == NoAction
    // sleep only after 30 minutes of the timer, at night, relay off, clock synchronised
    ensures c.decision.SleepFor? <==>
      Elapsed(now, s.lastCheck) >= CHECK_INTERVAL_MS && synced && IsNight(t) && !relayHigh &&
      s.offStart != 0 && Elapsed(now, s.offStart) >= NIGHT_DWELL_MS
    ensures c.decision.SleepFor? ==> c.decision.seconds == WakeDelay(t) && 0 < c.decision.seconds <= 46800
    ensures !c.timerStarted && synced && IsNight(t) && !relayHigh ==> c.state.offStart == s.offStart
  {
    if Elapsed(now, s.lastCheck) < CHECK_INTERVAL_MS then Check(s, NoAction, false)
    else
      var checked := s.(lastCheck := now);
      if !synced then Check(checked, NoAction, false)
      else if IsNight(t) && !relayHigh then
        if s.offStart == 0 then Check(checked.(offStart := now), NoAction, true)
        else if Elapsed(now, s.offStart) >= NIGHT_DWELL_MS then
          var seconds := WakeDelay(t);
          if seconds > 0 then Check(checked, SleepFor(seconds), false) else Check(checked, NoAction, false)
        else Check(checked, NoAction, false)
      else Check(checked.(offStart := 0), NoAction, false)
  }

  /** One call's inputs: the clock, whether local time is synchronised, the local time of day
      and the level read back from the relay pin. */
  datatype Observation = Observation(now: Millis, synced: bool, time: TimeOfDay, relayHigh: bool)

  /** One call's evaluation. */
  function CheckOf(s: SleepState, o: Observation): Check {
    Evaluate(s, o.now, o.synced, o.time, o.relayHigh)
  }

  /** The scheduler state after a series of calls that did not put the device to sleep. */
  function RunChecks(s: SleepState, obs: seq<Observation>): SleepState
    decreases |obs|
  {
    if obs == [] then s
    else RunChecks(CheckOf(s, obs[0]).state, obs[1..])
  }

  /** A due check with a synchronised clock that sees day time or the relay on. */
  predicate Clears(s: SleepState, o: Observation) {
    Elapsed(o.now, s.lastCheck) >= CHECK_INTERVAL_MS && o.synced && !(IsNight(o.time) && !o.relayHigh)
  }

  /** Every due, synchronised check of the series saw night with the relay off. */
  predicate StaysDark(s: SleepState, obs: seq<Observation>)
    decreases |obs|
  {
    obs == [] || (!Clears(s, obs[0]) && StaysDark(CheckOf(s, obs[0]).state, obs[1..]))
  }

  /** Only a due, synchronised check changes the night timer: a rate-limited or unsynchronised
      check leaves it alone, a clearing check sets it to 0, and otherwise only a first dark check
      sets it, to its own clock value. */
  lemma TimerChangesOnlyOnDueSyncedChecks(s: SleepState, o: Observation)
    ensures Elapsed(o.now, s.lastCheck) < CHECK_INTERVAL_MS || !o.synced ==> CheckOf(s, o).state.offStart == s.offStart
    ensures Clears(s, o) ==> CheckOf(s, o).state.offStart == 0
    ensures !Clears(s, o) && !CheckOf(s, o).timerStarted ==> CheckOf(s, o).state.offStart == s.offStart
  {
  }

  lemma {:induction false} RunChecksAppend(s: SleepState, a: seq<Observation>, b: seq<Observation>)
    ensures RunChecks(s, a + b) == RunChecks(RunChecks(s, a), b)
    decreases |a|
  {
    if a == [] {
      assert a + b == b;
    } else {
      assert (a + b)[1..] == a[1..] + b;
      RunChecksAppend(CheckOf(s, a[0]).state, a[1..], b);
    }
  }

  lemma RunChecksSplit(s: SleepState, obs: seq<Observation>, k: nat)
    requires k <= |obs|
    ensures RunChecks(RunChecks(s, obs[..k]), obs[k..]) == RunChecks(s, obs)
  {
    assert obs == obs[..k] + obs[k..];
    RunChecksAppend(s, obs[..k], obs[k..]);
  }

  lemma {:induction false} StaysDarkAppend(s: SleepState, obs: seq<Observation>, o: Observation)
    requires StaysDark(s, obs) && !Clears(RunChecks(s, obs), o)
    ensures StaysDark(s, obs + [o])
    decreases |obs|
  {
    if obs == [] {
      assert StaysDark(CheckOf(s, o).state, []);
      assert [o][1..] == [];
    } else {
      assert (obs + [o])[1..] == obs[1..] + [o];
      StaysDarkAppend(CheckOf(s, obs[0]).state, obs[1..], o);
    }
  }

  /** A check that does not start the timer and leaves it running neither cleared nor moved it. */
  lemma KeptTimer(p: SleepState, o: Observation)
    requires !CheckOf(p, o).timerStarted && CheckOf(p, o).state.offStart != 0
    ensures p.offStart == CheckOf(p, o).state.offStart && !Clears(p, o)
  {
  }

  /** A dark suffix after check `j` of all but the last observation stays dark when the last
      observation does not clear. */
  lemma DarkSuffixExtends(s: SleepState, obs: seq<Observation>, j: nat)
    requires j + 1 < |obs|
    requires StaysDark(RunChecks(s, obs[..|obs| - 1][..j + 1]), obs[..|obs| - 1][j + 1..])
    requires !Clears(RunChecks(s, obs[..|obs| - 1]), obs[|obs| - 1])
    ensures StaysDark(RunChecks(s, obs[..j + 1]), obs[j + 1..])
  {
    var n := |obs| - 1;
    var mid := obs[..n][j + 1..];
    assert obs[..n][..j + 1] == obs[..j + 1];
    assert obs[..n] == obs[..j + 1] + mid;
    RunChecksAppend(s, obs[..j + 1], mid);
    StaysDarkAppend(RunChecks(s, obs[..j + 1]), mid, obs[n]);
    assert mid + [obs[n]] == obs[j + 1..];
  }

  /** A night timer running at the end of a series that began without one was started by some
      check of the series, at that check's clock value, and no later check cleared it. */
  lemma {:induction false} RunningTimerHasStart(s: SleepState, obs: seq<Observation>)
    requires s.offStart == 0 && RunChecks(s, obs).offStart != 0
    ensures exists j :: (0 <= j < |obs| && CheckOf(RunChecks(s, obs[..j]), obs[j]).timerStarted &&
      obs[j].now == RunChecks(s, obs).offStart && StaysDark(RunChecks(s, obs[..j + 1]), obs[j + 1..]))
    decreases |obs|
  {
    assert obs != [];
    var n := |obs| - 1;
    var last := obs[n];
    var p := RunChecks(s, obs[..n]);
    var c := CheckOf(p, last);
    assert RunChecks(s, obs) == c.state by {
      assert obs == obs[..n] + [last];
      RunChecksAppend(s, obs[..n], [last]);
      assert RunChecks(p, [last]) == c.state;
    }
    if c.timerStarted {
      assert obs[..n + 1] == obs && obs[n + 1..] == [];
    } else {
      KeptTimer(p, last);
      RunningTimerHasStart(s, obs[..n]);
      var j :| 0 <= j < n && CheckOf(RunChecks(s, obs[..n][..j]), obs[..n][j]).timerStarted &&
        obs[..n][j].now == p.offStart && StaysDark(RunChecks(s, obs[..n][..j + 1]), obs[..n][j + 1..]);
      assert obs[..n][..j] == obs[..j];
      DarkSuffixExtends(s, obs, j);
    }
  }

  /** A check that decides to sleep found the night timer running for at least 30 minutes and
      did not clear it. */
  lemma SleepNeedsRunningTimer(p: SleepState, o: Observation)
    requires CheckOf(p, o).decision.SleepFor?
    ensures p.offStart != 0 && Elapsed(o.now, p.offStart) >= NIGHT_DWELL_MS && !Clears(p, o)
  {
  }

  /** Sleep comes only after continuous dark: a series that began without a night timer and
      ends in a decision to sleep contains the check that started the timer, at least 30
      minutes before the final one, and every due, synchronised check from then on (the final
      one included) saw night with the relay off. */
  lemma SleepFollowsContinuousDark(s: SleepState, obs: seq<Observation>, o: Observation)
    requires s.offStart == 0
    requires CheckOf(RunChecks(s, obs), o).decision.SleepFor?
    ensures exists j :: (0 <= j < |obs| && CheckOf(RunChecks(s, obs[..j]), obs[j]).timerStarted &&
      Elapsed(o.now, obs[j].now) >= NIGHT_DWELL_MS && StaysDark(RunChecks(s, obs[..j + 1]), obs[j + 1..] + [o]))
  {
    var p := RunChecks(s, obs);
    SleepNeedsRunningTimer(p, o);
    RunningTimerHasStart(s, obs);
    var j :| 0 <= j < |obs| && CheckOf(RunChecks(s, obs[..j]), obs[j]).timerStarted &&
      obs[j].now == p.offStart && StaysDark(RunChecks(s, obs[..j + 1]), obs[j + 1..]);
    var q := RunChecks(s, obs[..j + 1]);
    RunChecksSplit(s, obs, j + 1);
    StaysDarkAppend(q, obs[j + 1..], o);
  }

  /** Once running, the night timer keeps its start time for as long as every observation is
      night with the relay off: only day time or the relay switching on restarts it. */
  lemma {:induction false} DarkRunKeepsOffTimer(s: SleepState, obs: seq<Observation>)
    requires s.offStart != 0
    requires forall i :: 0 <= i < |obs| ==> IsNight(obs[i].time) && !obs[i].relayHigh
    ensures RunChecks(s, obs).offStart == s.offStart
    decreases |obs|
  {
    if obs != [] {
      DarkRunKeepsOffTimer(CheckOf(s, obs[0]).state, obs[1..]);
    }
  }
}
