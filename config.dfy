/**
 * The widget configuration as far as the modelled logic reads it: the `filter`
 * and `sort` sections, the tick settings, the duration format and the number of
 * header and quest template lines; the built-in defaults; and the start-up merge
 * of the user's document over the defaults, which replaces whole top-level
 * sections.
 */
module Config {
  import opened Wrappers
  import opened Values
  import opened QuestSort

  /** The fixed list the sort-key shortcuts cycle through and add from. */
  const SortKeyOptions: seq<string> :=
    ["id", "sector", "time_remaining", "completion_deadline", "quest_data_asset_path", "auto_complete", "data"]

  /** `filter.sectors`: a map from sector code to a flag, or some other value (never an object). */
  datatype SectorsField = SectorMap(entries: Dict<Value>) | NotAMap(raw: Json)

  /** The `filter` section; `None` is a missing key. */
  datatype FilterConfig = FilterConfig(enabled: Option<Value>, sectors: Option<SectorsField>)

  datatype WidgetConfig = WidgetConfig(
    filter: FilterConfig,
    sort: SortConfig,
    refreshInterval: int,     // refresh_interval: ticks between snapshot reads
    simulationDuration: int,  // time_simulation_duration: ticks the local clock runs
    timeFormat: string,       // time_remaining_format
    headerLines: nat,         // len(header)
    questLines: nat           // len(lines)
  )

  function DefaultFilter(): FilterConfig {
    FilterConfig(Some(Bool(true)),
      Some(SectorMap([("A0", Bool(true)), ("Z3", Bool(true)), ("B4", Bool(true)), ("C2", Bool(true))])))
  }

  function DefaultSort(): SortConfig {
    SortConfig(KeyList(["time_remaining"]), Some("asc"))
  }

  function DefaultConfig(): WidgetConfig {
    WidgetConfig(DefaultFilter(), DefaultSort(), 4, 120, "%dd %hh %mm %ss", 4, 3)
  }

  /** The top-level keys of the user's document that the model reads; `None` is a missing key. */
  datatype UserConfig = UserConfig(
    filter: Option<FilterConfig>,
    sort: Option<SortConfig>,
    refreshInterval: Option<int>,
    simulationDuration: Option<int>,
    timeFormat: Option<string>,
    headerLines: Option<nat>,
    questLines: Option<nat>
  )

  /** The user's document: a JSON object, or anything else (which is ignored). */
  datatype UserDoc = UserObject(cfg: UserConfig) | NotAnObject

  /**
   * `config = DEFAULT_CONFIG.copy(); config.update(user_cfg)` followed by
   * `setdefault` of `filter` and `sort`: every top-level key the user gives
   * replaces the default as a whole.
   */
  function MergeUser(base: WidgetConfig, doc: UserDoc): (r: WidgetConfig)
    ensures doc.NotAnObject? ==> r == base
  {
    match doc
    case NotAnObject => base
    case UserObject(u) =>
      WidgetConfig(
        u.filter.GetOr(base.filter), u.sort.GetOr(base.sort),
        u.refreshInterval.GetOr(base.refreshInterval), u.simulationDuration.GetOr(base.simulationDuration),
        u.timeFormat.GetOr(base.timeFormat), u.headerLines.GetOr(base.headerLines), u.questLines.GetOr(base.questLines))
  }

  /** Each key the user gives replaces that section whole; a missing key keeps the base's. */
  lemma MergeFields(base: WidgetConfig, u: UserConfig)
    ensures var r := MergeUser(base, UserObject(u));
      && (u.filter.Some? ==> r.filter == u.filter.value) && (u.filter.None? ==> r.filter == base.filter)
      && (u.sort.Some? ==> r.sort == u.sort.value) && (u.sort.None? ==> r.sort == base.sort)
      && (u.refreshInterval.Some? ==> r.refreshInterval == u.refreshInterval.value)
      && (u.refreshInterval.None? ==> r.refreshInterval == base.refreshInterval)
      && (u.simulationDuration.Some? ==> r.simulationDuration == u.simulationDuration.value)
      && (u.simulationDuration.None? ==> r.simulationDuration == base.simulationDuration)
      && (u.timeFormat.Some? ==> r.timeFormat == u.timeFormat.value) && (u.timeFormat.None? ==> r.timeFormat == base.timeFormat)
      && (u.headerLines.Some? ==> r.headerLines == u.headerLines.value) && (u.headerLines.None? ==> r.headerLines == base.headerLines)
      && (u.questLines.Some? ==> r.questLines == u.questLines.value) && (u.questLines.None? ==> r.questLines == base.questLines)
  {
  }

  /** The keys of the later document, and of the earlier one where the later is silent. */
  function Overlay(first: UserConfig, second: UserConfig): UserConfig {
    UserConfig(
      if second.filter.Some? then second.filter else first.filter,
      if second.sort.Some? then second.sort else first.sort,
      if second.refreshInterval.Some? then second.refreshInterval else first.refreshInterval,
      if second.simulationDuration.Some? then second.simulationDuration else first.simulationDuration,
      if second.timeFormat.Some? then second.timeFormat else first.timeFormat,
      if second.headerLines.Some? then second.headerLines else first.headerLines,
      if second.questLines.Some? then second.questLines else first.questLines)
  }

  /** Two `update`s in turn are one `update` in which the later document wins key by key. */
  lemma MergeComposes(base: WidgetConfig, first: UserConfig, second: UserConfig)
    ensures MergeUser(MergeUser(base, UserObject(first)), UserObject(second)) == MergeUser(base, UserObject(Overlay(first, second)))
  {
  }

  /** Applying the same user document again changes nothing. */
  lemma MergeIdempotent(base: WidgetConfig, doc: UserDoc)
    ensures MergeUser(MergeUser(base, doc), doc) == MergeUser(base, doc)
  {
  }

  /** A document with no key leaves the defaults as they are. */
  lemma MergeEmpty(base: WidgetConfig)
    ensures MergeUser(base, UserObject(UserConfig(None, None, None, None, None, None, None))) == base
  {
  }

  /**
   * A document holding only `{"sort": {"order": "desc"}}` keeps every other
   * section, but its `sort` section replaces the default one as a whole: the
   * default key list is gone, so the quests are no longer sorted.
   */
  lemma SortOnlyDocument(base: WidgetConfig)
    ensures var r := MergeUser(base, UserObject(UserConfig(None, Some(SortConfig(NoKeys, Some("desc"))), None, None, None, None, None)));
      && r.filter == base.filter && r.refreshInterval == base.refreshInterval
      && r.simulationDuration == base.simulationDuration && r.timeFormat == base.timeFormat
      && r.headerLines == base.headerLines && r.questLines == base.questLines
      && r.sort == SortConfig(NoKeys, Some("desc")) && KeyNames(r.sort) == []
  {
  }
}
