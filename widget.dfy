/**
 * The quest widget itself: its configuration, the runtime set of active
 * sectors, the last snapshot's quests and the local clock, and the entry
 * points that change them — start-up, the one-second tick, the snapshot and
 * configuration reloads, the render pass and the keyboard shortcuts.
 *
 * File contents arrive as parameters: a configuration read is a `FileRead`, a
 * snapshot read a `DataDoc`, and a reload skipped because the file did not
 * change is `None`.
 */
module Widget {
  import opened Wrappers
  import opened Text
  import opened Values
  import opened QuestSort
  import opened Config
  import opened QuestFilter
  import opened Shortcuts
  import opened ConfigFile
  import opened SimClock
  import opened Render

  /**
   * The snapshot document: an object, with its `timestamp` (`None` when missing
   * or null) and `data.get("quests", []) or []` (a falsy value read as the empty
   * list); or a JSON value that is not an object, on which `data.get` raises.
   */
  datatype DataDoc = DataDoc(timestamp: Option<int>, quests: Payload) | NotAnObject

  /** The document used when the snapshot file cannot be read. */
  function MissingData(): (r: DataDoc)
    ensures r.DataDoc? && r.timestamp.None? && r.quests == QuestList([])
  {
    DataDoc(None, QuestList([]))
  }

  /** Whether the tick after `simulated` seconds reads the snapshot: `simulated % refresh_interval == 0`. */
  function TickLoads(simulated: int, refresh: int): (r: bool)
    requires refresh != 0
  {
    (simulated + 1) % refresh == 0
  }

  class QuestWidget {
    var config: WidgetConfig
    var activeSectors: set<string>
    var quests: Payload
    var timestamp: Option<int>
    var simulatedTime: int
    var simulationActive: bool
    var renderScheduled: bool

    /** The active-sector set mirrors the configuration's sector map. */
    ghost predicate Valid()
      reads this
    {
      && activeSectors == ActiveSectorsOf(config.filter)
      && WellFormedFilter(config.filter)
    }

    function ClockState(): (c: Clock)
      reads this
      ensures c.timestamp == timestamp && c.simulated == simulatedTime && c.active == simulationActive
    {
      Clock(timestamp, simulatedTime, simulationActive)
    }

    /**
     * Start-up: the defaults with the user's document merged over them, the
     * active sectors read from it, the snapshot read, and a render queued.
     * The snapshot read is outside any `try`, so the widget is only built from
     * a snapshot document that is an object.
     */
    constructor(file: FileRead, data: DataDoc)
      requires data.DataDoc?
      ensures Valid()
      ensures config == MergeUser(DefaultConfig(), LoadUserDoc(file))
      ensures ClockState() == Ingest(Start(), data.timestamp)
      ensures quests == data.quests
      ensures renderScheduled
    {
      config := MergeUser(DefaultConfig(), LoadUserDoc(file));
      activeSectors := {};
      quests := QuestList([]);
      timestamp := None;
      simulatedTime := 0;
      simulationActive := true;
      renderScheduled := false;
      new;
      LoadedFilterWellFormed(DefaultConfig(), file);
      LoadActiveSectors();
      var _ := LoadDataJson(data);
      var _ := ScheduleRender();
    }

    /** `_load_active_sectors_from_config`. */
    method LoadActiveSectors()
      modifies this
      ensures activeSectors == ActiveSectorsOf(config.filter)
      ensures config == old(config) && quests == old(quests) && ClockState() == old(ClockState())
      ensures renderScheduled == old(renderScheduled)
    {
      activeSectors := ActiveSectorsOf(config.filter);
    }

    /**
     * `_load_data_json`: a new timestamp restarts the clock; the quests are
     * replaced.  A document that is not an object raises at `data.get` before
     * anything changes (`ok` is false).
     */
    method LoadDataJson(data: DataDoc) returns (ok: bool)
      modifies this
      ensures ok <==> data.DataDoc?
      ensures ok ==> ClockState() == Ingest(old(ClockState()), data.timestamp) && quests == data.quests
      ensures !ok ==> ClockState() == old(ClockState()) && quests == old(quests)
      ensures config == old(config) && activeSectors == old(activeSectors)
      ensures renderScheduled == old(renderScheduled)
    {
      if data.NotAnObject? {
        return false;
      }
      ok := true;
      var newTs := data.timestamp;
      if newTs != timestamp && newTs.Some? {
        timestamp := newTs;
        simulatedTime := 0;
        simulationActive := true;
      }
      quests := data.quests;
    }

    /**
     * `_load_and_apply_config`: the user's document is merged over the current
     * configuration and the active sectors are read again.
     */
    method ReloadConfig(file: FileRead)
      requires Valid()
      modifies this
      ensures Valid()
      ensures config == MergeUser(old(config), LoadUserDoc(file))
      ensures quests == old(quests) && ClockState() == old(ClockState())
      ensures renderScheduled == old(renderScheduled)
    {
      LoadedFilterWellFormed(config, file);
      config := MergeUser(config, LoadUserDoc(file));
      LoadActiveSectors();
    }

    /** `schedule_render`: queues a render unless one is already queued. */
    method ScheduleRender() returns (queued: bool)
      modifies this
      ensures queued == !old(renderScheduled) && renderScheduled
      ensures config == old(config) && activeSectors == old(activeSectors)
      ensures quests == old(quests) && ClockState() == old(ClockState())
    {
      if renderScheduled {
        return false;
      }
      renderScheduled := true;
      queued := true;
    }

    /**
     * `_tick`: one simulated second.  The simulation length and the refresh
     * interval are read before a changed configuration file is applied; a
     * refresh interval of 0 makes the modulo raise, which ends the tick before
     * the snapshot read and the render.  A snapshot that is not an object
     * raises in the read, outside any `try`, so no render is queued.
     */
    method Tick(configFile: Option<FileRead>, data: Option<DataDoc>, visible: bool)
      requires Valid()
      modifies this
      ensures Valid()
      ensures config == if configFile.Some? then MergeUser(old(config), LoadUserDoc(configFile.value)) else old(config)
      ensures var loads := old(config.refreshInterval) != 0 && TickLoads(old(simulatedTime), old(config.refreshInterval)) && data.Some?;
        var applied := loads && data.value.DataDoc?;
        && ClockState() == (var c := Advance(old(ClockState()), old(config.simulationDuration));
                            if applied then Ingest(c, data.value.timestamp) else c)
        && quests == (if applied then data.value.quests else old(quests))
        && renderScheduled == (old(renderScheduled) || (old(config.refreshInterval) != 0 && visible && !(loads && data.value.NotAnObject?)))
    {
      simulatedTime := simulatedTime + 1;
      var duration := config.simulationDuration;
      var refresh := config.refreshInterval;
      if configFile.Some? {
        ReloadConfig(configFile.value);
      }
      if simulatedTime >= duration {
        simulationActive := false;
      }
      if refresh == 0 {
        return;
      }
      if simulatedTime % refresh == 0 && data.Some? {
        var ok := LoadDataJson(data.value);
        if !ok {
          return;
        }
      }
      if visible {
        var _ := ScheduleRender();
      }
    }

    /**
     * `_render_quests_safe`: the filtered and sorted quests with their remaining
     * times, the header globals and the labels needed; `None` when the pass
     * stops with a render error.  Either way the queued flag is cleared.  The
     * filter pass uses the sectors the configuration marks active.
     */
    method Render(activeRepr: string) returns (view: Option<RenderView>)
      requires Valid()
      modifies this
      ensures Valid()
      ensures view == View(old(config), old(activeSectors), old(quests), old(ClockState()), activeRepr)
      ensures view == View(config, ActiveSectorsOf(config.filter), quests, ClockState(), activeRepr)
      ensures !renderScheduled
      ensures config == old(config) && activeSectors == old(activeSectors)
      ensures quests == old(quests) && ClockState() == old(ClockState())
    {
      view := RenderPass(config, activeSectors, quests, ClockState(), activeRepr);
      renderScheduled := false;
    }

    /**
     * `_on_shortcut_triggered`: the action changes the filter or sort section;
     * then the file's document with both sections replaced is written (`written`,
     * `None` when nothing is written), the active sectors are read again and a
     * render is queued.  An unknown action, or one that raises, changes nothing.
     */
    method OnShortcutTriggered(action: string, file: FileRead) returns (written: Option<Json>)
      requires Valid()
      modifies this
      ensures Valid()
      ensures var out := ApplyShortcut(old(config), action);
        && config == (if out.Applied? then out.cfg else old(config))
        && written == (if out.Applied? then SaveConfig(file, out.cfg) else None)
        && renderScheduled == (old(renderScheduled) || out.Applied?)
      ensures quests == old(quests) && ClockState() == old(ClockState())
    {
      ApplyKeepsWellFormed(config, action);
      var cfg := config;
      if action == "toggle_filter" {
        cfg := cfg.(filter := ToggleFilter(cfg.filter));
      } else if StartsWith(action, SectorPrefix) {
        var toggled := ToggleSector(cfg.filter, SectorCode(action));
        if toggled.None? {
          return None;
        }
        cfg := cfg.(filter := toggled.value);
      } else if action == "sort_order_asc" {
        cfg := cfg.(sort := cfg.sort.(order := Some("asc")));
      } else if action == "sort_order_desc" {
        cfg := cfg.(sort := cfg.sort.(order := Some("desc")));
      } else if action == "cycle_sort_key" {
        var cycled := CycleKeys(cfg.sort.keys);
        if cycled.None? {
          return None;
        }
        cfg := cfg.(sort := cfg.sort.(keys := cycled.value));
      } else if action == "add_sort_key" {
        match cfg.sort.keys {
          case SingleKey(s) =>
            if !EveryOptionOccursIn(s) {
              return None;
            }
          case NoKeys =>
            cfg := cfg.(sort := cfg.sort.(keys := KeyList([SortKeyOptions[0]])));
          case KeyList(ks) =>
            var k := FirstUnusedOption(ks);
            if k.Some? {
              cfg := cfg.(sort := cfg.sort.(keys := KeyList(ks + [k.value])));
            }
        }
      } else if action == "clear_sort_keys" {
        cfg := cfg.(sort := cfg.sort.(keys := ClearKeys(cfg.sort.keys)));
      } else {
        return None;
      }
      config := cfg;
      written := SaveConfig(file, config);
      LoadActiveSectors();
      var _ := ScheduleRender();
    }
  }

  // ---------------------------------------------------------------------------
  // What the widget promises
  // ---------------------------------------------------------------------------

  /** Whatever document is merged in, a well-formed filter section stays well formed. */
  lemma LoadedFilterWellFormed(base: WidgetConfig, file: FileRead)
    requires WellFormedFilter(base.filter)
    ensures WellFormedFilter(MergeUser(base, LoadUserDoc(file)).filter)
  {
    var doc := LoadUserDoc(file);
    if doc.UserObject? && doc.cfg.filter.Some? {
      var d := ReadOrEmpty(file).fields;
      var j := Get(d, "filter").value;
      FromJsonWellFormed(j);
    }
  }

  /** No shortcut turns the sector map into something that is not a map. */
  lemma ApplyKeepsWellFormed(cfg: WidgetConfig, action: string)
    requires WellFormedFilter(cfg.filter)
    ensures ApplyShortcut(cfg, action).Applied? ==> WellFormedFilter(ApplyShortcut(cfg, action).cfg.filter)
  {
  }

  /**
   * With a positive refresh interval the snapshot is read on every
   * `refresh`-th tick: the ticks that read it are `refresh` apart.
   */
  lemma LoadsEveryRefresh(simulated: int, refresh: int)
    requires refresh > 0
    ensures TickLoads(simulated, refresh) <==> TickLoads(simulated + refresh, refresh)
    ensures TickLoads(simulated, refresh) ==>
      forall s :: simulated < s < simulated + refresh ==> !TickLoads(s, refresh)
  {
    var n := simulated + 1;
    var q := n / refresh;
    assert n == q * refresh + n % refresh;
    assert n + refresh == (q + 1) * refresh + n % refresh;
    ModOf(q + 1, refresh, n % refresh);
    if n % refresh == 0 {
      forall s | simulated < s < simulated + refresh ensures !TickLoads(s, refresh) {
        assert s + 1 == q * refresh + (s - simulated);
        ModOf(q, refresh, s - simulated);
      }
    }
  }

  /** The remainder of `q * r + k` by `r` is `k` whenever `0 <= k < r`. */
  lemma ModOf(q: int, r: int, k: int)
    requires 0 <= k < r
    ensures (q * r + k) % r == k
  {
    var a := q * r + k;
    var m := a / r;
    assert a == m * r + a % r;
    assert (m - q) * r == k - a % r;
    MulBounds(m - q, r);
  }

  lemma MulBounds(d: int, r: int)
    requires r > 0
    ensures d >= 1 ==> d * r >= r
    ensures d <= -1 ==> d * r <= -r
  {
  }

  /**
   * After a shortcut that changed the configuration and wrote the file, the
   * next start-up from the written file restores the same filter and sort.
   */
  lemma ShortcutSurvivesRestart(cfg: WidgetConfig, action: string, file: FileRead)
    requires WellFormedFilter(cfg.filter)
    requires ApplyShortcut(cfg, action).Applied? && SaveConfig(file, ApplyShortcut(cfg, action).cfg).Some?
    ensures var out := ApplyShortcut(cfg, action).cfg;
      var r := MergeUser(DefaultConfig(), LoadUserDoc(Parsed(SaveConfig(file, out).value)));
      r.filter == out.filter && r.sort == out.sort
  {
    ApplyKeepsWellFormed(cfg, action);
    SaveThenLoad(file, ApplyShortcut(cfg, action).cfg);
  }

  /** An unreadable snapshot leaves the clock as it is and shows no quests. */
  lemma MissingDataClears(c: Clock, cfg: WidgetConfig, active: set<string>)
    ensures Ingest(c, MissingData().timestamp) == c
    ensures FilterSpec(cfg.filter, active, MissingData().quests) == []
  {
  }
}
