# Solar relay controller: decision engine

A Dafny model of the control logic of an ESP32 firmware (`esp.cpp`) that switches a load relay
from a solar-charged battery. The firmware reads bus voltage, current and power from an INA219
power monitor, keeps running peaks, and turns the relay ON when voltage AND current are high
enough and OFF when voltage falls to a cutoff, committing a change only after it has been asked
for continuously for 60 s. At night, with the relay off for half an hour, it deep-sleeps until
08:00. A bounded log records what happened, and a small web interface lets an operator force the
relay, reset the peaks and change the thresholds.

Modules:

- `Clock`: `millis()` timestamps as 32-bit unsigned values (`Millis`), with `Elapsed` as the
  wrapping subtraction `millis() - x`.
- `Ina219`: the configuration-register value (0x399F active, 0x3998 power-down) and the bytes
  written to the bus for each.
- `EventLog`: `addLog`'s push-then-evict FIFO of at most 15 lines, with the proof that any run of
  appends keeps exactly the last 15 lines ever logged.
- `Relay`: the decision step of `checkAndControlRelay` as a function of explicit state
  (`RelayState`), the desired-state rule, and lemmas over whole runs of steps: peaks never
  decrease, nothing commits less than 60 s after an excursion starts, a held condition commits
  at most once, and exactly once when it is read for at least 60 s.
- `NightSleep`: `enterDeepSleep`'s decision as a function of explicit state (`SleepState`), the
  night test, the seconds until the next 08:00, and the proof that a decision to sleep follows
  at least 30 minutes of checks that all saw night with the relay off.
- `Firmware`: class `Controller`, whose fields are the firmware's globals and statics. Its
  methods follow the C++ functions statement by statement, and each is proved equal in effect
  to the pure step functions above.

Timestamps wrap at 2^32 ms exactly as in the firmware. The timer sentinels are kept: a debounce
timer or night timer whose value is 0 counts as "not running". Sensor values are `real`
(voltage in V, current in mA, power in mW). The timestamp prefix of a log line (`"[HH:MM:SS] "`
or `"[No Time] "`) is a parameter. The local time of day and whether it is synchronised are also
parameters. The pins, the I2C bus and the log are recorded state.

Because 0 means "no timer", an excursion whose first read happens exactly at `millis() == 0`
stamps the debounce timer with 0, so the timer stays unset and starts only at the next read
(`Relay.ExcursionFromClockZeroDelaysCommit`). The same holds for the night timer at 0.

Behaviour one might expect that `esp.cpp` does not have:

- A manual override (`handleToggle`) does not clear the debounce timer. `Relay.Override` keeps
  it, and `Relay.OverrideKeepsStaleTimer` shows the consequence. Suppose a timer was left
  running before the override and the readings after it disagree with the operator. The
  override is then undone as soon as 60 s have passed since the timer's original start, and at
  once if they already have.
- There is no plausibility floor on the voltage. Readings below 1.0 V are used like any other.
- There is no energy (Wh) integration and no adaptive sampling interval. `checkAndControlRelay`
  reads at most once per 2000 ms. `handleRoot` reads the sensor and raises the peaks on every page
  view, without a rate limit and without touching the read time.
- There is no startup grace period and no first decision without debounce.
- The wake time is fixed at 08:00:00. The night window is hour >= 19 or hour < 8.

## Model

| member | source | states |
|---|---|---|
| `Clock.Elapsed` | esp.cpp:265 | `now - since` in unsigned 32-bit arithmetic: adding it back to `since` modulo 2^32 gives `now`, and it is the plain difference when the clock has not wrapped |
| `Clock.ElapsedSplit` | esp.cpp:291 | Two elapsed times from a common origin subtract, as long as the earlier point comes no later than the later one |
| `Ina219.PowerDownConfig` | esp.cpp:69-70 | `0x399F & ~0x0007` is 0x3998. Its mode bits are 0, and putting the mode bits back gives the active value |
| `Ina219.ConfigWrite` | esp.cpp:71-75 | A configuration write goes to address 0x40: register byte 0x00, then the high byte, then the low byte. Decoding the two data bytes gives back the value |
| `Ina219.ActiveWrite` | esp.cpp:78-86 | setINA219Active writes exactly the bytes 0x00, 0x39, 0x9F to address 0x40 |
| `Ina219.PowerDownWrite` | esp.cpp:67-76 | setINA219PowerDown writes exactly the bytes 0x00, 0x39, 0x98 to address 0x40 |
| `Ina219.WritesDifferOnlyInMode` | esp.cpp:67-86 | The two writes use the same address and register and differ only in the three mode bits |
| `EventLog.Appended` | esp.cpp:60-64 | After addLog the new entry is last. The log grows by one below 15 entries and otherwise keeps its length, so it never exceeds 15 |
| `EventLog.AppendedKeepsOrder` | esp.cpp:61-64 | The earlier entries keep their order, and at most the single oldest one is evicted |
| `EventLog.AppendedKeepsWindow` | esp.cpp:49-64 | One append to the last-15 window of a history gives the last-15 window of the extended history |
| `EventLog.AppendedAllIsWindow` | esp.cpp:49-64 | After any series of addLog calls the log holds exactly the last 15 lines ever logged, in logging order |
| `Relay.Raised` | esp.cpp:277 | `if (x > peak) peak = x` yields the maximum of the peak and the value |
| `Relay.RecordPeaks` | esp.cpp:277-279 | After a reading each peak is at least its old value and at least the new reading, and equals one of the two |
| `Relay.DesiredState` | esp.cpp:281-287 | The ON condition (V >= high AND I >= current threshold) gives HIGH whatever the cutoff. Otherwise V <= cutoff gives LOW. Otherwise the committed state is held. A desired state different from the committed one is HIGH or LOW |
| `Relay.OrderIrrelevantWithProperBand` | esp.cpp:281-287 | With cutoff < ON voltage, the rule agrees with the same rule that tests OFF first |
| `Relay.OnWinsWithInvertedBand` | esp.cpp:282-287 | With an inverted band, a reading meeting both conditions gives HIGH, where OFF-first would give LOW |
| `Relay.DesiredStateIsStable` | esp.cpp:281-287 | Once the desired state is committed, the same reading asks for the same state again |
| `Relay.Step` | esp.cpp:263-300 | Within 2000 ms of the last read nothing changes. The sensor is read iff the interval has passed and the sensor is present, and then the peaks are raised. A commit happens iff the desired state differs, the timer was already set and 60000 ms have elapsed since it started. A commit resets the timer. Agreement clears the timer and keeps the committed state. Pending disagreement starts the timer or keeps it |
| `Relay.PeaksNeverDecrease` | esp.cpp:277-279 | Over any series of relay steps every peak is at least its starting value |
| `Relay.NoCommitWithinDebounce` | esp.cpp:289-296 | If the timer is unset or started no earlier than a base time, no step less than 60 s after that base commits, and the committed state stays the same |
| `Relay.ShortExcursionNeverCommits` | esp.cpp:289-299 | Starting with no timer, a run of steps spanning less than 60 s commits nothing, whatever the readings |
| `Relay.HeldLevelNeverCommits` | esp.cpp:289-299 | While every reading forces the already committed level, no step commits |
| `Relay.SustainedConditionCommitsAtMostOnce` | esp.cpp:289-296 | A condition held across a run commits at most once, and a commit is to the level it forces |
| `Relay.PendingTimerCommitsOnce` | esp.cpp:289-296 | Suppose the timer is running and every reading is taken and forces the new level. If the last read is at least 60 s after the timer's start, the run commits exactly once, to that level |
| `Relay.SustainedConditionCommitsOnce` | esp.cpp:289-299 | Start with no timer and a new level forced at every read. If the first read is at a nonzero clock value and the last is at least 60 s after it, exactly one commit happens, to that level |
| `Relay.ExcursionFromClockZeroDelaysCommit` | esp.cpp:290 | An excursion first read at `millis() == 0` starts no timer. The next read starts it, so nothing has committed yet |
| `Relay.Override` | esp.cpp:168-173 | A manual toggle sets the committed level and leaves the debounce timer, read time and peaks as they were |
| `Relay.ResetPeaks` | esp.cpp:179-182 | Resetting sets all three peaks to 0 and leaves the rest of the decision state alone |
| `Relay.OverrideKeepsStaleTimer` | esp.cpp:168-173 | Because the override keeps an expired timer, the next read that forces the opposite level commits at once |
| `NightSleep.SecondOfDay` | esp.cpp:150 | The seconds since midnight lie within the current hour and within one day |
| `NightSleep.WakeDelay` | esp.cpp:142-153 | At night the delay is between 1 and 46800 s and ends at 08:00:00. From 19:00 on that is tomorrow's 08:00; before 08:00 it is today's |
| `NightSleep.WakeDelayIsNext` | esp.cpp:142-148 | No positive delay shorter than the computed one ends at 08:00:00, so the wake time is the next 08:00 |
| `NightSleep.Evaluate` | esp.cpp:120-166 | Within 10 s of the last check nothing changes. An unsynchronised clock leaves the night timer alone and does nothing. Day time or relay HIGH clears the timer. The first dark check only starts the timer. Sleep happens iff the check is due, the clock is synced, it is night, the relay is LOW and the timer has run 1800000 ms. The sleep lasts the wake delay, in 1 to 46800 s |
| `NightSleep.DarkRunKeepsOffTimer` | esp.cpp:134-165 | Once started, the night timer keeps its start time through any run of checks that are all night with the relay off |
| `NightSleep.TimerChangesOnlyOnDueSyncedChecks` | esp.cpp:122-138 | A rate-limited or unsynced check leaves the night timer alone. A due, synced check in day time or with the relay HIGH sets it to 0. Any other check changes it only by starting it |
| `NightSleep.SleepNeedsRunningTimer` | esp.cpp:122-141 | A check that decides to sleep found the night timer already running for at least 1800000 ms, and did not clear it |
| `NightSleep.RunningTimerHasStart` | esp.cpp:134-138 | Suppose a run began with no night timer and ends with one running. Then some check of the run started it, at its own clock value, and no due, synced check since saw day time or the relay HIGH |
| `NightSleep.SleepFollowsContinuousDark` | esp.cpp:134-165 | Suppose a run began with no night timer and ends in a decision to sleep. Then a dark check at least 1800000 ms earlier started the timer, and every due, synced check since, the last included, saw night with the relay LOW |
| `Firmware.Applied` | esp.cpp:248-250 | handleSave assigns each threshold whose argument is present and keeps the others |
| `Firmware.Loaded` | esp.cpp:88-93 | loadSettings takes each stored threshold, and for each key not stored its own default: 12.1 V, 13.2 V and 150.0 mA. With nothing stored it gives all three defaults |
| `Firmware.SavedThresholdsReload` | esp.cpp:248-256 | The thresholds handleSave persists are the thresholds loadSettings restores |
| `Firmware.Controller.Setup` | esp.cpp:357-373 | At boot the relay is LOW, the peaks and both timers are 0, and the thresholds are loaded. The log holds the RTC line and "Settings Loaded", each with its own timestamp prefix |
| `Firmware.Controller.AddLog` | esp.cpp:52-65 | The log becomes `Appended` of the old log and the timestamped line |
| `Firmware.Controller.SetIna219Active` | esp.cpp:78-86 | If the sensor was found, exactly the active write is appended to the bus. Otherwise nothing is |
| `Firmware.Controller.SetIna219PowerDown` | esp.cpp:67-76 | If the sensor was found, exactly the power-down write is appended to the bus. Otherwise nothing is |
| `Firmware.Controller.CheckAndControlRelay` | esp.cpp:263-300 | The decision globals become `Relay.Step` of the old ones. A read puts the active and power-down writes on the bus. A commit writes the pin and logs "Relay -> ON/OFF". Nothing else changes |
| `Firmware.Controller.EnterDeepSleep` | esp.cpp:120-166 | The sleep globals and the decision follow `NightSleep.Evaluate`. Starting the timer logs once. Sleeping logs, powers the sensor down and forces the relay LOW |
| `Firmware.Controller.HandleToggle` | esp.cpp:168-177 | With a state argument, the pin and the committed level take it, the debounce timer is untouched and one line is logged. Without one nothing changes |
| `Firmware.Controller.HandleResetPeaks` | esp.cpp:179-186 | The three peaks become 0 and "Peaks Reset" is logged |
| `Firmware.Controller.HandleRoot` | esp.cpp:188-198 | Viewing the page reads the sensor between the two writes and raises the peaks. Nothing else in the decision state changes |
| `Firmware.Controller.HandleSave` | esp.cpp:247-261 | The thresholds become `Applied` to the form's arguments, and "Settings updated" is logged |

## Left out

- WiFi management, reconnection and the web server's routing and redirects (`maintainWiFi`, `server.send`): network I/O.
- The HTML page of `handleRoot` and the RTC temperature shown on it: display only.
- Firmware upload over the air and `ESP.restart`: foreign firmware APIs.
- Time sourcing: `syncInternalClockFromRTC`, `getTimeString`, `getLocalTime`, `strftime` and `mktime` are library calls. The local hour, minute, second and the "synced" flag are inputs. `enterDeepSleep` treats the clock as synced when `tm_year >= 120` (2020 or later). `addLog` uses the stricter `tm_year > 120` for its timestamp, but the prefix is an opaque parameter here. Calendar arithmetic reduces to seconds of the day because the daylight-saving offset is 0.
- Reading and writing the preferences store: I/O. Only the stored values and the defaults 12.1 / 13.2 / 150.0 are modelled.
- `loop()` itself, including the rule that `enterDeepSleep` runs only while online and the periodic RTC resync: scheduling outside the decision engine.
- The deep sleep itself (`delay(200)`, `esp_sleep_enable_timer_wakeup`, `esp_deep_sleep_start`): it is returned as `SleepFor(seconds)`. The conversion to microseconds in 64 bits and the test `sleep_us > 0` are modelled as `seconds > 0`. This is the same on every night-time input, where the delay is 1 to 46800 s.
- `Firmware.Controller.CheckAndControlRelay`: one clock value `now` stands for every `millis()` call in one call. In the firmware, the debounce timer is stamped about 60 ms after `last_read_time` because of the conversion delay between them.
- Sensor register reads (`getBusVoltage_V`, `getCurrent_mA`, `getPower_mW`) and `ina219.begin()`: the reading is an input. Float rounding and NaN are not modelled; values are reals.
- Parsing of HTTP arguments (`toInt`, `toFloat`): arguments arrive already parsed. The toggle's `long` is not truncated to `int`. A nonzero value written to the relay pin is taken to drive it HIGH. `digitalWrite` takes its value as an 8-bit `uint8_t`, so a toggle state such as 256 drives the pin LOW while the committed level becomes 256. The model ignores this 8-bit truncation.
- A `tm_sec` value of 60 (leap second) is not admitted by `NightSleep.TimeOfDay`.
