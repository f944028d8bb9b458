/** The firmware's global state and the handlers that change it (esp.cpp), as one object.
    Each method does what the corresponding C++ function does to the globals, step by step,
    and is proved against the pure step functions of Relay, NightSleep and EventLog. */
module Firmware {
  import opened Wrappers
  import opened Clock
  import opened Ina219
  import opened EventLog
  import opened Relay
  import opened NightSleep

  /** loadSettings' fall-back values for keys never saved. */
  const DEFAULT_V_LOW: real := 12.1
  const DEFAULT_V_HIGH: real := 13.2
  const DEFAULT_C_HIGH: real := 150.0

  /** Values for the keys `v_low`, `v_high`, `c_high`, each present or absent: the saved
      preferences, or the arguments of a /save request. */
  datatype SettingValues = SettingValues(vLow: Option<real>, vHigh: Option<real>, cHigh: Option<real>)

  /** The thresholds after assigning every value that is present and keeping the others. */
  function Applied(cfg: Thresholds, values: SettingValues): (r: Thresholds)
    ensures values.vLow.Some? ==> r.vLowCutoff == values.vLow.value
    ensures values.vLow.None? ==> r.vLowCutoff == cfg.vLowCutoff
    ensures values.vHigh.Some? ==> r.vHighOn == values.vHigh.value
    ensures values.vHigh.None? ==> r.vHighOn == cfg.vHighOn
    ensures values.cHigh.Some? ==> r.cOnMa == values.cHigh.value
    ensures values.cHigh.None? ==> r.cOnMa == cfg.cOnMa
  {
    Thresholds(values.vLow.GetOr(cfg.vLowCutoff), values.vHigh.GetOr(cfg.vHighOn), values.cHigh.GetOr(cfg.cOnMa))
  }

  /** loadSettings: each stored value, or its default when the key was never saved. */
  function Loaded(saved: SettingValues): (cfg: Thresholds)
    ensures saved == SettingValues(None, None, None) ==> cfg == Thresholds(12.1, 13.2, 150.0)
    ensures saved.vLow.None? ==> cfg.vLowCutoff == DEFAULT_V_LOW
    ensures saved.vHigh.None? ==> cfg.vHighOn == DEFAULT_V_HIGH
    ensures saved.cHigh.None? ==> cfg.cOnMa == DEFAULT_C_HIGH
    ensures saved.vLow.Some? ==> cfg.vLowCutoff == saved.vLow.value
    ensures saved.vHigh.Some? ==> cfg.vHighOn == saved.vHigh.value
    ensures saved.cHigh.Some? ==> cfg.cOnMa == saved.cHigh.value
  {
    Applied(Thresholds(DEFAULT_V_LOW, DEFAULT_V_HIGH, DEFAULT_C_HIGH), saved)
  }

  /** What handleSave writes back: all three current thresholds. */
  function Persisted(cfg: Thresholds): SettingValues {
    SettingValues(Some(cfg.vLowCutoff), Some(cfg.vHighOn), Some(cfg.cOnMa))
  }

  /** Thresholds saved by handleSave are the thresholds loadSettings restores at the next boot. */
  lemma SavedThresholdsReload(cfg: Thresholds, form: SettingValues)
    ensures Loaded(Persisted(Applied(cfg, form))) == Applied(cfg, form)
  {
  }

  /** The log line of a committed relay change. */
  function RelayMessage(level: int): string {
    "Relay -> " + if level == HIGH then "ON" else "OFF"
  }

  /** The log line of a manual override. */
  function ManualMessage(level: int): string {
    "Manual -> " + if level == HIGH then "ON" else "OFF"
  }

  const NIGHT_TIMER_MESSAGE: string := "Night mode: Timer start (30m)"
  const SLEEP_MESSAGE: string := "Sleep: Wake 8AM"

  class Controller {
    /** `ina219_found`, set once at boot. */
    var sensorFound: bool
    /** The level last written to RELAY_PIN (true is HIGH); `digitalRead` returns it. */
    var relayPin: bool
    var thresholds: Thresholds
    var peakV: real
    var peakC: real
    var peakP: real
    var lastStableState: int
    var debounceTimerStart: Millis
    /** The static `last_read_time` of checkAndControlRelay. */
    var lastReadTime: Millis
    var offStartTime: Millis
    /** The static `last_sleep_check` of enterDeepSleep. */
    var lastSleepCheck: Millis
    var eventLogs: seq<string>
    /** Every configuration-register write sent to the power monitor, oldest first. */
    var bus: seq<Transmission>

    ghost predicate Valid()
      reads this
    {
      |eventLogs| <= MAX_LOGS
    }

    /** The globals checkAndControlRelay works on. */
    function RelayView(): RelayState
      reads this
    {
      RelayState(lastStableState, debounceTimerStart, lastReadTime, Peaks(peakV, peakC, peakP))
    }

    /** The globals enterDeepSleep works on. */
    function SleepView(): SleepState
      reads this
    {
      SleepState(offStartTime, lastSleepCheck)
    }

    /** The global initialisers, then setup() and loadSettings(): relay off, no peaks, no
        timers, the stored (or default) thresholds, and two log lines, each with the timestamp
        prefix of its own addLog call. */
    constructor Setup(sensorFound: bool, rtcFound: bool, saved: SettingValues, rtcStamp: string, settingsStamp: string)
      ensures Valid()
      ensures this.sensorFound == sensorFound && !relayPin && bus == []
      ensures RelayView() == RelayState(LOW, 0, 0, ZERO_PEAKS)
      ensures SleepView() == SleepState(0, 0)
      ensures thresholds == Loaded(saved)
      ensures eventLogs == [rtcStamp + (if rtcFound then "RTC Init OK" else "RTC Not Found"), settingsStamp + "Settings Loaded"]
    {
      this.sensorFound := sensorFound;
      relayPin := false;
      peakV, peakC, peakP := 0.0, 0.0, 0.0;
      lastStableState := LOW;
      debounceTimerStart, lastReadTime := 0, 0;
      offStartTime, lastSleepCheck := 0, 0;
      bus := [];
      var log := Appended([], rtcStamp + (if rtcFound then "RTC Init OK" else "RTC Not Found"));
      thresholds := Loaded(saved);
      eventLogs := Appended(log, settingsStamp + "Settings Loaded");
    }

    /** addLog: `stamp` is the "[HH:MM:SS] " or "[No Time] " prefix. */
    method AddLog(stamp: string, msg: string)
      requires Valid()
      modifies this`eventLogs
      ensures Valid()
      ensures eventLogs == Appended(old(eventLogs), stamp + msg)
    {
      var entry := stamp + msg;
      eventLogs := eventLogs + [entry];
      if |eventLogs| > MAX_LOGS {
        eventLogs := eventLogs[1..];
      }
    }

    /** setINA219Active: one configuration write, only if the sensor was found. */
    method SetIna219Active()
      modifies this`bus
      ensures bus == old(bus) + if sensorFound then [ActiveWrite()] else []
    {
      if !sensorFound {
        return;
      }
      var configValue: bv16 := 0x399F;
      bus := bus + [Transmission(0x40, [0x00, ((configValue >> 8) & 0xFF) as bv8, (configValue & 0xFF) as bv8])];
    }

    /** setINA219PowerDown: the same write with the mode bits cleared. */
    method SetIna219PowerDown()
      modifies this`bus
      ensures bus == old(bus) + if sensorFound then [PowerDownWrite()] else []
    {
      if !sensorFound {
        return;
      }
      var configValue: bv16 := 0x399F;
      configValue := configValue & !0x0007;
      bus := bus + [Transmission(0x40, [0x00, ((configValue >> 8) & 0xFF) as bv8, (configValue & 0xFF) as bv8])];
    }

    /** checkAndControlRelay, at clock value `now`, where `reading` is what the sensor returns
        if it is read. */
    method CheckAndControlRelay(now: Millis, reading: Reading, stamp: string)
      requires Valid()
      modifies this`lastReadTime, this`peakV, this`peakC, this`peakP, this`lastStableState
      modifies this`debounceTimerStart, this`relayPin, this`eventLogs, this`bus
      ensures Valid()
      ensures var t := Step(old(RelayView()), old(thresholds), Sample(now, old(sensorFound), reading));
        && RelayView() == t.state
        && bus == old(bus) + (if t.read then [ActiveWrite(), PowerDownWrite()] else [])
        && relayPin == (if t.commit.Some? then t.commit.value != LOW else old(relayPin))
        && eventLogs == (if t.commit.Some? then Appended(old(eventLogs), stamp + RelayMessage(t.commit.value)) else old(eventLogs))
    {
      if Elapsed(now, lastReadTime) < READ_INTERVAL_MS {
        return;
      }
      lastReadTime := now;
      if !sensorFound {
        return;
      }
      SetIna219Active();
      // the 60 ms conversion wait and the three register reads produce `reading`
      SetIna219PowerDown();

      if reading.voltage > peakV { peakV := reading.voltage; }
      if reading.current > peakC { peakC := reading.current; }
      if reading.power > peakP { peakP := reading.power; }

      var desired := DesiredState(reading, thresholds, lastStableState);
      if desired != lastStableState {
        if debounceTimerStart == 0 {
          debounceTimerStart := now;
        }
        if Elapsed(now, debounceTimerStart) >= DEBOUNCE_DELAY_MS {
          relayPin := desired != LOW;
          lastStableState := desired;
          debounceTimerStart := 0;
          AddLog(stamp, RelayMessage(desired));
        }
      } else {
        debounceTimerStart := 0;
      }
    }

    /** enterDeepSleep, given the clock, whether local time is valid (synchronised) and the
        local time of day. Sleeping is returned as the decision; the caller suspends. */
    method EnterDeepSleep(now: Millis, synced: bool, time: TimeOfDay, stamp: string) returns (decision: Decision)
      requires Valid()
      modifies this`offStartTime, this`lastSleepCheck, this`relayPin, this`eventLogs, this`bus
      ensures Valid()
      ensures var c := Evaluate(old(SleepView()), now, synced, time, old(relayPin));
        && SleepView() == c.state
        && decision == c.decision
        && eventLogs == (if c.timerStarted then Appended(old(eventLogs), stamp + NIGHT_TIMER_MESSAGE)
                         else if c.decision.SleepFor? then Appended(old(eventLogs), stamp + SLEEP_MESSAGE)
                         else old(eventLogs))
        && bus == old(bus) + (if c.decision.SleepFor? && old(sensorFound) then [PowerDownWrite()] else [])
        && relayPin == (if c.decision.SleepFor? then false else old(relayPin))
    {
      decision := NoAction;
      if Elapsed(now, lastSleepCheck) < CHECK_INTERVAL_MS {
        return;
      }
      lastSleepCheck := now;
      if !synced {
        return;
      }
      var isNight := false;
      if time.hour >= NIGHT_START_HOUR || time.hour < WAKE_HOUR {
        isNight := true;
      }
      if isNight && !relayPin {
        if offStartTime == 0 {
          offStartTime := now;
          AddLog(stamp, NIGHT_TIMER_MESSAGE);
          return;
        }
        if Elapsed(now, offStartTime) >= NIGHT_DWELL_MS {
          var seconds := WakeDelay(time);
          if seconds > 0 {
            AddLog(stamp, SLEEP_MESSAGE);
            SetIna219PowerDown();
            relayPin := false;
            decision := SleepFor(seconds);
          }
        }
      } else {
        offStartTime := 0;
      }
    }

    /** handleToggle: with a `state` argument, write it to the relay pin and make it the
        committed state; the debounce timer is not touched. */
    method HandleToggle(state: Option<int>, stamp: string)
      requires Valid()
      modifies this`relayPin, this`lastStableState, this`eventLogs
      ensures Valid()
      ensures state.Some? ==>
        && RelayView() == Override(old(RelayView()), state.value)
        && relayPin == (state.value != LOW)
        && eventLogs == Appended(old(eventLogs), stamp + ManualMessage(state.value))
      ensures state.None? ==> RelayView() == old(RelayView()) && relayPin == old(relayPin) && eventLogs == old(eventLogs)
    {
      if state.Some? {
        var s := state.value;
        relayPin := s != LOW;
        lastStableState := s;
        AddLog(stamp, ManualMessage(s));
      }
    }

    /** handleResetPeaks: zero the three peaks. */
    method HandleResetPeaks(stamp: string)
      requires Valid()
      modifies this`peakV, this`peakC, this`peakP, this`eventLogs
      ensures Valid()
      ensures RelayView() == ResetPeaks(old(RelayView()))
      ensures eventLogs == Appended(old(eventLogs), stamp + "Peaks Reset")
    {
      peakV := 0.0;
      peakC := 0.0;
      peakP := 0.0;
      AddLog(stamp, "Peaks Reset");
    }

    /** The state effect of handleRoot: one sensor read, bracketed by the two configuration
        writes, that raises the peaks (the page it renders is not modelled). The read is made
        even when the sensor was not found; only the register writes are skipped. */
    method HandleRoot(reading: Reading)
      modifies this`peakV, this`peakC, this`peakP, this`bus
      ensures RelayView() == old(RelayView()).(peaks := RecordPeaks(old(RelayView()).peaks, reading))
      ensures bus == old(bus) + if sensorFound then [ActiveWrite(), PowerDownWrite()] else []
    {
      SetIna219Active();
      SetIna219PowerDown();
      if reading.voltage > peakV { peakV := reading.voltage; }
      if reading.current > peakC { peakC := reading.current; }
      if reading.power > peakP { peakP := reading.power; }
    }

    /** handleSave: assign each threshold whose argument is present (persisting them is left
        to the preferences store). */
    method HandleSave(form: SettingValues, stamp: string)
      requires Valid()
      modifies this`thresholds, this`eventLogs
      ensures Valid()
      ensures thresholds == Applied(old(thresholds), form)
      ensures eventLogs == Appended(old(eventLogs), stamp + "Settings updated")
    {
      if form.vLow.Some? { thresholds := thresholds.(vLowCutoff := form.vLow.value); }
      if form.vHigh.Some? { thresholds := thresholds.(vHighOn := form.vHigh.value); }
      if form.cHigh.Some? { thresholds := thresholds.(cOnMa := form.cHigh.value); }
      AddLog(stamp, "Settings updated");
    }
  }
}
