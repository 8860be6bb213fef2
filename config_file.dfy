/**
 * The widget's configuration file as a JSON document: how the `filter` and
 * `sort` sections are written to it and read back, how the document read at
 * start-up becomes the user's settings, and the read-merge-write that saves the
 * two sections after a shortcut while keeping every other key of the file.
 */
module ConfigFile {
  import opened Wrappers
  import opened Values
  import opened QuestSort
  import opened Config

  /** The outcome of reading a file: absent, present but not valid JSON, or a parsed document. */
  datatype FileRead = Missing | Unreadable | Parsed(doc: Json)

  /** `read_json_safe(path, {}) or {}`: the document, with an absent, unreadable or falsy one read as `{}`. */
  function ReadOrEmpty(file: FileRead): (r: Json)
    ensures file.Parsed? && JTruthy(file.doc) ==> r == file.doc
    ensures !(file.Parsed? && JTruthy(file.doc)) ==> r == JObj([])
  {
    match file
    case Parsed(j) => if JTruthy(j) then j else JObj([])
    case _ => JObj([])
  }

  // ---------------------------------------------------------------------------
  // Writing the sections
  // ---------------------------------------------------------------------------

  function EntriesToJson(e: Dict<Value>): (r: Dict<Json>)
    ensures |r| == |e| && forall i :: 0 <= i < |e| ==> r[i] == (e[i].0, ValueToJson(e[i].1))
  {
    seq(|e|, i requires 0 <= i < |e| => (e[i].0, ValueToJson(e[i].1)))
  }

  function SectorsToJson(s: SectorsField): Json {
    match s
    case SectorMap(e) => JObj(EntriesToJson(e))
    case NotAMap(raw) => raw
  }

  /** The `filter` section as `json.dump` writes it: `enabled`, then `sectors`, each only when present. */
  function FilterToJson(f: FilterConfig): Json {
    JObj((if f.enabled.Some? then [("enabled", ValueToJson(f.enabled.value))] else [])
      + (if f.sectors.Some? then [("sectors", SectorsToJson(f.sectors.value))] else []))
  }

  function KeysToJson(k: SortKeys): Json
    requires !k.NoKeys?
  {
    match k
    case KeyList(names) => JArr(seq(|names|, i requires 0 <= i < |names| => JStr(names[i])))
    case SingleKey(name) => JStr(name)
  }

  /** The `sort` section: `keys`, then `order`, each only when present. */
  function SortToJson(s: SortConfig): Json {
    JObj((if s.keys.NoKeys? then [] else [("keys", KeysToJson(s.keys))])
      + (if s.order.Some? then [("order", JStr(s.order.value))] else []))
  }

  // ---------------------------------------------------------------------------
  // Reading the sections
  // ---------------------------------------------------------------------------

  /** The items of a sector map, when every flag is a scalar. */
  function EntriesFromJson(d: Dict<Json>): (r: Option<Dict<Value>>)
    ensures r.Some? ==> EntriesToJson(r.value) == d
    decreases |d|
  {
    if d == [] then Some([])
    else
      match (JsonToValue(d[0].1), EntriesFromJson(d[1..]))
      case (Some(v), Some(rest)) =>
        assert EntriesToJson([(d[0].0, v)] + rest) == d by {
          assert d == [d[0]] + d[1..];
        }
        Some([(d[0].0, v)] + rest)
      case _ => None
  }

  function SectorsFromJson(j: Json): Option<SectorsField> {
    match j
    case JObj(d) =>
      (match EntriesFromJson(d)
       case Some(e) => Some(SectorMap(e))
       case None => None)
    case _ => Some(NotAMap(j))
  }

  /** An optional scalar field: missing is fine, a non-scalar value is ill-shaped. */
  function OptionalValue(d: Dict<Json>, key: string): Option<Option<Value>> {
    match Get(d, key)
    case None => Some(None)
    case Some(j) =>
      (match JsonToValue(j)
       case Some(v) => Some(Some(v))
       case None => None)
  }

  /** The `filter` section read back; `None` for a section of a shape the model does not cover. */
  function FilterFromJson(j: Json): Option<FilterConfig> {
    match j
    case JObj(d) =>
      (match (OptionalValue(d, "enabled"), Get(d, "sectors"))
       case (Some(en), None) => Some(FilterConfig(en, None))
       case (Some(en), Some(sj)) =>
         (match SectorsFromJson(sj)
          case Some(sec) => Some(FilterConfig(en, Some(sec)))
          case None => None)
       case _ => None)
    case _ => None
  }

  function NamesFromJson(items: seq<Json>): (r: Option<seq<string>>)
    ensures r.Some? ==> |r.value| == |items| && forall i :: 0 <= i < |items| ==> items[i] == JStr(r.value[i])
    decreases |items|
  {
    if items == [] then Some([])
    else if !items[0].JStr? then None
    else
      match NamesFromJson(items[1..])
      case Some(rest) => Some([items[0].s] + rest)
      case None => None
  }

  function KeysFromJson(j: Option<Json>): Option<SortKeys> {
    match j
    case None => Some(NoKeys)
    case Some(JStr(s)) => Some(SingleKey(s))
    case Some(JArr(items)) =>
      (match NamesFromJson(items)
       case Some(names) => Some(KeyList(names))
       case None => None)
    case _ => None
  }

  /** The `sort` section read back; `None` for a section of a shape the model does not cover. */
  function SortFromJson(j: Json): Option<SortConfig> {
    match j
    case JObj(d) =>
      var order: Option<Json> := Get(d, "order");
      (match (KeysFromJson(Get(d, "keys")), order)
       case (Some(k), None) => Some(SortConfig(k, None))
       case (Some(k), Some(JStr(o))) => Some(SortConfig(k, Some(o)))
       case _ => None)
    case _ => None
  }

  /** A sector field that is not a map never holds an object (an object is a map). */
  predicate WellFormedFilter(f: FilterConfig) {
    f.sectors.Some? && f.sectors.value.NotAMap? ==> !f.sectors.value.raw.JObj?
  }

  lemma {:induction false} EntriesRoundTrip(e: Dict<Value>)
    ensures EntriesFromJson(EntriesToJson(e)) == Some(e)
    decreases |e|
  {
    if e != [] {
      var d := EntriesToJson(e);
      assert d[1..] == EntriesToJson(e[1..]);
      EntriesRoundTrip(e[1..]);
      ValueJsonRoundTrip(e[0].1);
      assert e == [(e[0].0, e[0].1)] + e[1..];
    }
  }

  lemma SectorsRoundTrip(sec: SectorsField)
    requires sec.NotAMap? ==> !sec.raw.JObj?
    ensures SectorsFromJson(SectorsToJson(sec)) == Some(sec)
  {
    if sec.SectorMap? {
      EntriesRoundTrip(sec.entries);
    }
  }

  /** What is written for the filter section reads back as the same section. */
  lemma FilterRoundTrip(f: FilterConfig)
    requires WellFormedFilter(f)
    ensures FilterFromJson(FilterToJson(f)) == Some(f)
  {
    var d := FilterToJson(f).fields;
    assert OptionalValue(d, "enabled") == Some(f.enabled) by {
      if f.enabled.Some? {
        ValueJsonRoundTrip(f.enabled.value);
        assert Get(d, "enabled") == Some(ValueToJson(f.enabled.value));
      } else {
        assert Get(d, "enabled") == None;
      }
    }
    if f.sectors.Some? {
      assert Get(d, "sectors") == Some(SectorsToJson(f.sectors.value));
      SectorsRoundTrip(f.sectors.value);
    } else {
      assert Get(d, "sectors") == None;
    }
  }

  lemma {:induction false} NamesRoundTrip(names: seq<string>)
    ensures NamesFromJson(seq(|names|, i requires 0 <= i < |names| => JStr(names[i]))) == Some(names)
    decreases |names|
  {
    if names != [] {
      var items := seq(|names|, i requires 0 <= i < |names| => JStr(names[i]));
      assert items[1..] == seq(|names[1..]|, i requires 0 <= i < |names[1..]| => JStr(names[1..][i]));
      NamesRoundTrip(names[1..]);
      assert names == [names[0]] + names[1..];
    }
  }

  /** What is written for the sort section reads back as the same section. */
  lemma SortRoundTrip(s: SortConfig)
    ensures SortFromJson(SortToJson(s)) == Some(s)
  {
    var d := SortToJson(s).fields;
    assert KeysFromJson(Get(d, "keys")) == Some(s.keys) by {
      match s.keys
      case NoKeys =>
        assert Get(d, "keys") == None;
      case SingleKey(k) =>
        assert Get(d, "keys") == Some(JStr(k));
      case KeyList(names) =>
        assert Get(d, "keys") == Some(KeysToJson(s.keys));
        NamesRoundTrip(names);
    }
    if s.order.Some? {
      assert Get(d, "order") == Some(JStr(s.order.value));
    } else {
      assert Get(d, "order") == None;
    }
  }

  lemma FromJsonWellFormed(j: Json)
    ensures FilterFromJson(j).Some? ==> WellFormedFilter(FilterFromJson(j).value)
  {
  }

  // ---------------------------------------------------------------------------
  // The document read at start-up
  // ---------------------------------------------------------------------------

  function IntField(d: Dict<Json>, key: string): Option<int> {
    var v: Option<Json> := Get(d, key);
    match v
    case Some(JInt(i)) => Some(i)
    case _ => None
  }

  function TextField(d: Dict<Json>, key: string): Option<string> {
    var v: Option<Json> := Get(d, key);
    match v
    case Some(JStr(s)) => Some(s)
    case _ => None
  }

  function LengthField(d: Dict<Json>, key: string): Option<nat> {
    var v: Option<Json> := Get(d, key);
    match v
    case Some(JArr(items)) => Some(|items|)
    case _ => None
  }

  /**
   * `user_cfg = read_json_safe(path, {}) or {}` and, when it is a dict, the
   * top-level keys the model reads; a section of a shape the model does not
   * cover counts as missing.
   */
  function LoadUserDoc(file: FileRead): (r: UserDoc)
    ensures r.NotAnObject? <==> !ReadOrEmpty(file).JObj?
  {
    match ReadOrEmpty(file)
    case JObj(d) =>
      UserObject(UserConfig(
        match Get(d, "filter") case Some(j) => FilterFromJson(j) case None => None,
        match Get(d, "sort") case Some(j) => SortFromJson(j) case None => None,
        IntField(d, "refresh_interval"),
        IntField(d, "time_simulation_duration"),
        TextField(d, "time_remaining_format"),
        LengthField(d, "header"),
        LengthField(d, "lines")))
    case _ => NotAnObject
  }

  /** An absent, unreadable or empty file leaves the defaults in force. */
  lemma NoFileKeepsDefaults(file: FileRead)
    requires !(file.Parsed? && JTruthy(file.doc))
    ensures MergeUser(DefaultConfig(), LoadUserDoc(file)) == DefaultConfig()
  {
  }

  // ---------------------------------------------------------------------------
  // Saving after a shortcut
  // ---------------------------------------------------------------------------

  /**
   * `_save_config`: the file's document (or `{}`) with `filter` and `sort`
   * replaced by the current sections; `None` when nothing is written, because
   * the document is a truthy value other than an object and the item assignment
   * raises.
   */
  function SaveConfig(file: FileRead, cfg: WidgetConfig): (r: Option<Json>)
    ensures r.Some? <==> ReadOrEmpty(file).JObj?
    ensures r.Some? ==> r.value.JObj? && JTruthy(r.value)
  {
    match ReadOrEmpty(file)
    case JObj(d) =>
      var w := Set(Set(d, "filter", FilterToJson(cfg.filter)), "sort", SortToJson(cfg.sort));
      GetSet(Set(d, "filter", FilterToJson(cfg.filter)), "sort", SortToJson(cfg.sort), "sort");
      Some(JObj(w))
    case _ => None
  }

  /** The written document holds the current sections under `filter` and `sort`. */
  lemma SaveConfigWrites(file: FileRead, cfg: WidgetConfig)
    requires ReadOrEmpty(file).JObj?
    ensures var w := SaveConfig(file, cfg).value.fields;
      && Get(w, "filter") == Some(FilterToJson(cfg.filter))
      && Get(w, "sort") == Some(SortToJson(cfg.sort))
  {
    var d := ReadOrEmpty(file).fields;
    var fj, sj := FilterToJson(cfg.filter), SortToJson(cfg.sort);
    var d1 := Set(d, "filter", fj);
    assert SaveConfig(file, cfg).value.fields == Set(d1, "sort", sj);
    GetSet(d1, "sort", sj, "filter");
    GetSet(d, "filter", fj, "filter");
    GetSet(d1, "sort", sj, "sort");
  }

  /** Every other key of the file keeps its value. */
  lemma SaveConfigKeepsOthers(file: FileRead, cfg: WidgetConfig, k: string)
    requires ReadOrEmpty(file).JObj? && k != "filter" && k != "sort"
    ensures Get(SaveConfig(file, cfg).value.fields, k) == Get(ReadOrEmpty(file).fields, k)
  {
    var d := ReadOrEmpty(file).fields;
    var d1 := Set(d, "filter", FilterToJson(cfg.filter));
    GetSet(d1, "sort", SortToJson(cfg.sort), k);
    GetSet(d, "filter", FilterToJson(cfg.filter), k);
  }

  /** No key of the file moves: the written keys start with the file's keys, in order. */
  lemma SaveConfigKeepsOrder(file: FileRead, cfg: WidgetConfig)
    requires ReadOrEmpty(file).JObj?
    ensures var d := ReadOrEmpty(file).fields;
      var w := SaveConfig(file, cfg).value.fields;
      |d| <= |w| && Keys(w)[..|d|] == Keys(d)
  {
    var d := ReadOrEmpty(file).fields;
    var d1 := Set(d, "filter", FilterToJson(cfg.filter));
    KeysSet(d, "filter", FilterToJson(cfg.filter));
    KeysSet(d1, "sort", SortToJson(cfg.sort));
    assert Keys(d1)[..|d|] == Keys(d);
  }

  /** Assigning the value a key already holds changes nothing. */
  lemma {:induction false} SetExisting<V>(d: Dict<V>, k: string, v: V)
    requires Get(d, k) == Some(v)
    ensures Set(d, k, v) == d
    decreases |d|
  {
    if d != [] && d[0].0 != k {
      SetExisting(d[1..], k, v);
    }
  }

  /** Saving the same configuration over the saved file writes the same document. */
  lemma SaveIdempotent(file: FileRead, cfg: WidgetConfig)
    requires ReadOrEmpty(file).JObj?
    ensures SaveConfig(Parsed(SaveConfig(file, cfg).value), cfg) == SaveConfig(file, cfg)
  {
    var w := SaveConfig(file, cfg).value;
    SaveConfigWrites(file, cfg);
    assert ReadOrEmpty(Parsed(w)) == w;
    SetExisting(w.fields, "filter", FilterToJson(cfg.filter));
    SetExisting(w.fields, "sort", SortToJson(cfg.sort));
  }

  /**
   * A saved configuration is what the next start-up restores: reading the
   * written document back yields the same `filter` and `sort` sections.
   */
  lemma SaveThenLoad(file: FileRead, cfg: WidgetConfig)
    requires ReadOrEmpty(file).JObj? && WellFormedFilter(cfg.filter)
    ensures var r := MergeUser(DefaultConfig(), LoadUserDoc(Parsed(SaveConfig(file, cfg).value)));
      r.filter == cfg.filter && r.sort == cfg.sort
  {
    var w := SaveConfig(file, cfg).value;
    SaveConfigWrites(file, cfg);
    FilterRoundTrip(cfg.filter);
    SortRoundTrip(cfg.sort);
  }
}
