/**
 * The widget's local simulation clock: the snapshot timestamp, the seconds
 * simulated since it arrived, and whether the simulation still runs.  A new
 * snapshot timestamp restarts the clock; each tick adds a second and stops the
 * simulation once the configured duration is reached.  The displayed time
 * freezes when the simulation stops, while the sort keeps counting.
 */
module SimClock {
  import opened Wrappers
  import opened QuestSort

  datatype Clock = Clock(timestamp: Option<int>, simulated: int, active: bool)

  /** The state before any snapshot: no timestamp, nothing simulated, running. */
  function Start(): Clock {
    Clock(None, 0, true)
  }

  /**
   * The timestamp step of `_load_data_json`: a timestamp that is present and
   * differs from the current one restarts the clock; a missing or unchanged one
   * leaves the clock as it is.
   */
  function Ingest(c: Clock, newTs: Option<int>): (r: Clock)
    ensures r.timestamp == if newTs.Some? then newTs else c.timestamp
    ensures r == c || (r.simulated == 0 && r.active)
  {
    if newTs != c.timestamp && newTs.Some? then Clock(newTs, 0, true) else c
  }

  /** The clock step of `_tick`: one more simulated second; the simulation stops at `duration`. */
  function Advance(c: Clock, duration: int): (r: Clock)
    ensures r.timestamp == c.timestamp && r.simulated == c.simulated + 1
    ensures r.active <==> c.active && r.simulated < duration
  {
    c.(simulated := c.simulated + 1, active := if c.simulated + 1 >= duration then false else c.active)
  }

  /** `k` ticks in a row, with no snapshot in between. */
  function AdvanceTimes(c: Clock, duration: int, k: nat): Clock
    decreases k
  {
    if k == 0 then c else Advance(AdvanceTimes(c, duration, k - 1), duration)
  }

  /** The `timestamp` shown in the header: running time while the simulation is active, else the snapshot's. */
  function DisplayTimestamp(c: Clock): Option<int> {
    if c.timestamp.Some? && c.active then Some(c.timestamp.value + c.simulated) else c.timestamp
  }

  /** The time the sort measures `time_remaining` from. */
  function SortReference(c: Clock): int {
    ReferenceTime(c.timestamp, c.simulated)
  }

  // ---------------------------------------------------------------------------
  // What the clock promises
  // ---------------------------------------------------------------------------

  /** Reading the same snapshot again does not restart the clock. */
  lemma IngestSameSnapshot(c: Clock, t: Option<int>)
    ensures Ingest(Ingest(c, t), t) == Ingest(c, t)
  {
  }

  /**
   * After a fresh snapshot, `k` ticks have simulated `k` seconds, and the
   * simulation still runs exactly when no tick has happened or fewer than
   * `duration` seconds have passed.
   */
  lemma {:induction false} RunAfterSnapshot(ts: int, duration: int, k: nat)
    ensures var c := AdvanceTimes(Clock(Some(ts), 0, true), duration, k);
      && c.timestamp == Some(ts) && c.simulated == k
      && (c.active <==> k == 0 || k < duration)
    decreases k
  {
    if k > 0 {
      RunAfterSnapshot(ts, duration, k - 1);
    }
  }

  /** A stopped simulation stays stopped until the next snapshot. */
  lemma {:induction false} StoppedStaysStopped(c: Clock, duration: int, k: nat)
    requires !c.active
    ensures !AdvanceTimes(c, duration, k).active
    ensures AdvanceTimes(c, duration, k).timestamp == c.timestamp
    ensures AdvanceTimes(c, duration, k).simulated == c.simulated + k
    decreases k
  {
    if k > 0 {
      StoppedStaysStopped(c, duration, k - 1);
    }
  }

  /**
   * Once the simulation has stopped, the displayed time stays at the snapshot
   * timestamp while the sort reference keeps advancing with every tick.
   */
  lemma DisplayFreezesSortRuns(c: Clock, duration: int, k: nat)
    requires !c.active && c.timestamp.Some? && c.timestamp.value != 0
    ensures DisplayTimestamp(AdvanceTimes(c, duration, k)) == c.timestamp
    ensures SortReference(AdvanceTimes(c, duration, k)) == c.timestamp.value + c.simulated + k
  {
    StoppedStaysStopped(c, duration, k);
  }

  /** While the simulation runs, the displayed time is the time the sort measures from. */
  lemma DisplayWhileRunning(c: Clock)
    requires c.active && c.timestamp.Some? && c.timestamp.value != 0
    ensures DisplayTimestamp(c) == Some(SortReference(c))
  {
  }
}
