/** The bounded event log shown on the dashboard (esp.cpp, eventLogs and addLog): a FIFO of
    human-readable lines that keeps only the most recent MAX_LOGS. */
module EventLog {

  const MAX_LOGS: nat := 15

  /** The log after `addLog` appends `entry` (the timestamp prefix already joined to the
      message): push the entry at the back, then drop the front entry if the log overflowed. */
  function Appended(log: seq<string>, entry: string): (r: seq<string>)
    ensures |log| <= MAX_LOGS ==> |r| <= MAX_LOGS
    ensures |log| < MAX_LOGS ==> |r| == |log| + 1
    ensures |r| > 0 && r[|r| - 1] == entry
    ensures |log| <= |r| <= |log| + 1
  {
    var grown := log + [entry];
    if |grown| > MAX_LOGS then grown[1..] else grown
  }

  /** The earlier entries keep their order, and at most the single oldest one is evicted. */
  lemma AppendedKeepsOrder(log: seq<string>, entry: string)
    ensures var r := Appended(log, entry);
      r[..|r| - 1] == log[|log| + 1 - |r|..]
  {
  }

  /** The most recent MAX_LOGS entries of a whole history of log lines. */
  function Window(history: seq<string>): (w: seq<string>)
    ensures |w| <= MAX_LOGS
  {
    if |history| <= MAX_LOGS then history else history[|history| - MAX_LOGS..]
  }

  /** The log after a series of `addLog` calls, one per entry, oldest first. */
  function AppendedAll(log: seq<string>, entries: seq<string>): seq<string>
    decreases |entries|
  {
    if entries == [] then log else AppendedAll(Appended(log, entries[0]), entries[1..])
  }

  /** One `addLog` on a log that already is the window of some history gives the window of
      that history extended by the new entry. */
  lemma AppendedKeepsWindow(history: seq<string>, entry: string)
    ensures Appended(Window(history), entry) == Window(history + [entry])
  {
  }

  /** However many `addLog` calls are made, starting from an empty log, the log holds exactly
      the last MAX_LOGS lines ever logged, in the order they were logged. */
  lemma {:induction false} AppendedAllIsWindow(history: seq<string>, entries: seq<string>)
    ensures AppendedAll(Window(history), entries) == Window(history + entries)
    decreases |entries|
  {
    if entries != [] {
      AppendedKeepsWindow(history, entries[0]);
      AppendedAllIsWindow(history + [entries[0]], entries[1..]);
      assert history + [entries[0]] + entries[1..] == history + entries;
    }
  }
}
