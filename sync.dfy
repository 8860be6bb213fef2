/**
 * The snapshot synchroniser: on every cycle it finds the active player in the
 * game's save database, reads that player's quests and the world time, attaches
 * each quest's tracking blob as hex text, and writes the snapshot the widget
 * reads.  With no active player it writes the cleared snapshot instead.  Also
 * the synchroniser's own small configuration file.
 *
 * The database is a value: one sequence of rows per table, in the order the
 * queries return them.  A column equality in a query is SQL equality, which
 * never holds for NULL.
 */
module Sync {
  import opened Wrappers
  import opened Values
  import opened Hex
  import opened ConfigFile

  // ---------------------------------------------------------------------------
  // The tables
  // ---------------------------------------------------------------------------

  datatype EntityRow = EntityRow(cls: Value, flags: Value, entitySystemId: Value)

  datatype EntitySystemRow = EntitySystemRow(id: Value, userProfileId: Value, timestamp: Value)

  datatype ActiveQuestRow = ActiveQuestRow(
    userProfileId: Value, id: Value, sector: Value, completionDeadline: Value,
    questDataAssetPath: Value, autoComplete: Value)

  /** A `tracking_data` row; `data` is `None` for a NULL blob. */
  datatype TrackingRow = TrackingRow(trackingDataSetId: Value, data: Option<seq<byte>>)

  datatype Db = Db(
    entity: seq<EntityRow>,
    entitySystem: seq<EntitySystemRow>,
    activeQuest: seq<ActiveQuestRow>,
    trackingData: seq<TrackingRow>)

  /** `column = ?` in SQL: false whenever either side is NULL. */
  predicate SqlEq(a: Value, b: Value) {
    a != Null && b != Null && a == b
  }

  // ---------------------------------------------------------------------------
  // The queries
  // ---------------------------------------------------------------------------

  predicate IsActivePrisoner(e: EntityRow) {
    SqlEq(e.cls, Str("FPrisonerEntity")) && SqlEq(e.flags, Int(0))
  }

  /** Position of the first active prisoner entity, if any. */
  function FirstActivePrisoner(rows: seq<EntityRow>): (r: Option<nat>)
    ensures r.Some? ==> r.value < |rows| && IsActivePrisoner(rows[r.value])
    ensures r.Some? ==> forall j :: 0 <= j < r.value ==> !IsActivePrisoner(rows[j])
    ensures r.None? ==> forall j :: 0 <= j < |rows| ==> !IsActivePrisoner(rows[j])
  {
    if rows == [] then None
    else if IsActivePrisoner(rows[0]) then Some(0)
    else match FirstActivePrisoner(rows[1..]) case Some(k) => Some(k + 1) case None => None
  }

  /** Position of the first `entity_system` row with the given `id`, if any. */
  function SystemById(rows: seq<EntitySystemRow>, id: Value): (r: Option<nat>)
    ensures r.Some? ==> r.value < |rows| && SqlEq(rows[r.value].id, id)
    ensures r.Some? ==> forall j :: 0 <= j < r.value ==> !SqlEq(rows[j].id, id)
    ensures r.None? ==> forall j :: 0 <= j < |rows| ==> !SqlEq(rows[j].id, id)
  {
    if rows == [] then None
    else if SqlEq(rows[0].id, id) then Some(0)
    else match SystemById(rows[1..], id) case Some(k) => Some(k + 1) case None => None
  }

  /** Position of the first `entity_system` row of the given profile, if any. */
  function SystemByProfile(rows: seq<EntitySystemRow>, profile: Value): (r: Option<nat>)
    ensures r.Some? ==> r.value < |rows| && SqlEq(rows[r.value].userProfileId, profile)
    ensures r.Some? ==> forall j :: 0 <= j < r.value ==> !SqlEq(rows[j].userProfileId, profile)
    ensures r.None? ==> forall j :: 0 <= j < |rows| ==> !SqlEq(rows[j].userProfileId, profile)
  {
    if rows == [] then None
    else if SqlEq(rows[0].userProfileId, profile) then Some(0)
    else match SystemByProfile(rows[1..], profile) case Some(k) => Some(k + 1) case None => None
  }

  /**
   * `get_active_user_profile_id`: the `user_profile_id` of the `entity_system`
   * row of the first active prisoner, `Null` when there is no such entity or
   * no such row.
   */
  function ActiveProfileId(db: Db): Value {
    match FirstActivePrisoner(db.entity)
    case None => Null
    case Some(e) =>
      match SystemById(db.entitySystem, db.entity[e].entitySystemId)
      case None => Null
      case Some(s) => db.entitySystem[s].userProfileId
  }

  /** `get_world_timestamp`: the `timestamp` of the profile's first `entity_system` row, `Null` when none. */
  function WorldTimestamp(db: Db, profile: Value): Value {
    match SystemByProfile(db.entitySystem, profile)
    case None => Null
    case Some(s) => db.entitySystem[s].timestamp
  }

  /** One `active_quest` row as the quest dictionary, its five columns in query order. */
  function QuestOfRow(row: ActiveQuestRow): Quest {
    [ ("id", row.id), ("sector", row.sector), ("completion_deadline", row.completionDeadline),
      ("quest_data_asset_path", row.questDataAssetPath), ("auto_complete", row.autoComplete) ]
  }

  /** `get_active_quests`: the profile's quest rows, in order. */
  function ActiveQuests(rows: seq<ActiveQuestRow>, profile: Value): (r: seq<Quest>)
    ensures |r| <= |rows|
  {
    if rows == [] then []
    else (if SqlEq(rows[0].userProfileId, profile) then [QuestOfRow(rows[0])] else []) + ActiveQuests(rows[1..], profile)
  }

  /** Position of the first tracking row of the given set, if any. */
  function TrackingFor(rows: seq<TrackingRow>, id: Value): (r: Option<nat>)
    ensures r.Some? ==> r.value < |rows| && SqlEq(rows[r.value].trackingDataSetId, id)
    ensures r.Some? ==> forall j :: 0 <= j < r.value ==> !SqlEq(rows[j].trackingDataSetId, id)
    ensures r.None? ==> forall j :: 0 <= j < |rows| ==> !SqlEq(rows[j].trackingDataSetId, id)
  {
    if rows == [] then None
    else if SqlEq(rows[0].trackingDataSetId, id) then Some(0)
    else match TrackingFor(rows[1..], id) case Some(k) => Some(k + 1) case None => None
  }

  /** The `data` a quest with the given id receives: the first matching blob as hex, or `Null`. */
  function DataFor(db: Db, id: Value): Value {
    match TrackingFor(db.trackingData, id)
    case None => Null
    case Some(t) =>
      match db.trackingData[t].data
      case None => Null
      case Some(blob) => Str(Encode(blob))
  }

  /** The quest with its tracking data attached: `quest["data"] = ...` for its `id` (`None` when it has none). */
  function WithData(db: Db, q: Quest): Quest {
    Set(q, "data", DataFor(db, GetOr(q, "id", Null)))
  }

  /** `attach_tracking_data`: every quest, in place and in order, gains its `data`. */
  method AttachTrackingData(db: Db, quests: seq<Quest>) returns (r: seq<Quest>)
    ensures |r| == |quests|
    ensures forall i :: 0 <= i < |quests| ==> r[i] == WithData(db, quests[i])
  {
    r := quests;
    var i := 0;
    while i < |r|
      invariant 0 <= i <= |r| == |quests|
      invariant forall j :: 0 <= j < i ==> r[j] == WithData(db, quests[j])
      invariant forall j :: i <= j < |r| ==> r[j] == quests[j]
    {
      var quest := r[i];
      var questId := GetOr(quest, "id", Null);
      var t := TrackingFor(db.trackingData, questId);
      var data := Null;
      if t.Some? {
        var blob := db.trackingData[t.value].data;
        if blob.Some? {
          data := Str(Encode(blob.value));
        }
      }
      r := r[i := Set(quest, "data", data)];
      i := i + 1;
    }
  }

  // ---------------------------------------------------------------------------
  // One cycle
  // ---------------------------------------------------------------------------

  /** The document written to the snapshot file. */
  datatype Snapshot = Snapshot(userProfileId: Value, timestamp: Value, quests: seq<Quest>)

  /** `clear_quest_json`. */
  function ClearedSnapshot(): Snapshot {
    Snapshot(Null, Null, [])
  }

  /** The snapshot one cycle writes: the cleared one when the profile id is falsy, else the player's. */
  function CycleSnapshot(db: Db): Snapshot {
    var profile := ActiveProfileId(db);
    if !Truthy(profile) then ClearedSnapshot()
    else
      var qs := ActiveQuests(db.activeQuest, profile);
      Snapshot(profile, WorldTimestamp(db, profile), seq(|qs|, i requires 0 <= i < |qs| => WithData(db, qs[i])))
  }

  /** The body of one pass of `main_loop`, reduced to the snapshot it writes. */
  method RunCycle(db: Db) returns (snap: Snapshot)
    ensures snap == CycleSnapshot(db)
  {
    var profile := ActiveProfileId(db);
    if !Truthy(profile) {
      return ClearedSnapshot();
    }
    var quests := ActiveQuests(db.activeQuest, profile);
    quests := AttachTrackingData(db, quests);
    var timestamp := WorldTimestamp(db, profile);
    snap := Snapshot(profile, timestamp, quests);
  }

  // ---------------------------------------------------------------------------
  // The synchroniser's configuration
  // ---------------------------------------------------------------------------

  const SyncDefaults: Dict<Json> := [("scan_interval", JInt(4))]

  /** The object with every default key it lacks added, in the defaults' order. */
  function FillDefaults(d: Dict<Json>, defaults: Dict<Json>): Dict<Json>
    decreases |defaults|
  {
    if defaults == [] then d
    else
      var (k, v) := defaults[0];
      FillDefaults(if HasKey(d, k) then d else Set(d, k, v), defaults[1..])
  }

  /**
   * `load_or_create_config`: the configuration in effect (`cfg`) and what is
   * written (`written`, only when the file is missing).  A parsed object gains
   * the missing default keys; a list holding the text `"scan_interval"` or a
   * text containing it is returned as it is, since `in` finds the key there;
   * any other value makes the item assignment raise, and an unreadable file or
   * that error gives the defaults.
   */
  function SyncConfigOf(file: FileRead): (r: Json)
    ensures r.JObj? || r.JArr? || r.JStr?
  {
    match file
    case Missing => JObj(SyncDefaults)
    case Unreadable => JObj(SyncDefaults)
    case Parsed(j) =>
      match j
      case JObj(d) => JObj(FillDefaults(d, SyncDefaults))
      case JArr(items) => if JStr("scan_interval") in items then j else JObj(SyncDefaults)
      case JStr(s) => if Text.Occurs("scan_interval", s) then j else JObj(SyncDefaults)
      case _ => JObj(SyncDefaults)
  }

  method LoadOrCreateConfig(file: FileRead) returns (cfg: Json, written: Option<Json>)
    ensures cfg == SyncConfigOf(file)
    ensures written == if file.Missing? then Some(JObj(SyncDefaults)) else None
  {
    written := None;
    if file.Missing? {
      written := Some(JObj(SyncDefaults));
      return JObj(SyncDefaults), written;
    }
    if file.Unreadable? {
      return JObj(SyncDefaults), written;
    }
    var user := file.doc;
    var i := 0;
    while i < |SyncDefaults|
      invariant 0 <= i <= |SyncDefaults|
      invariant user.JObj? ==> file.doc.JObj? && FillDefaults(user.fields, SyncDefaults[i..]) == FillDefaults(file.doc.fields, SyncDefaults)
      invariant !user.JObj? ==> user == file.doc
      invariant i > 0 && !user.JObj? ==> SyncConfigOf(file) == user
    {
      var (key, value) := SyncDefaults[i];
      match user {
        case JObj(d) =>
          if !HasKey(d, key) {
            user := JObj(Set(d, key, value));
          }
        case JArr(items) =>
          if JStr(key) !in items {
            return JObj(SyncDefaults), written;
          }
        case JStr(s) =>
          if !Text.Occurs(key, s) {
            return JObj(SyncDefaults), written;
          }
        case _ =>
          return JObj(SyncDefaults), written;
      }
      assert SyncDefaults[i..][1..] == SyncDefaults[i + 1..];
      i := i + 1;
    }
    assert SyncDefaults[i..] == [];
    cfg := user;
  }

  // ---------------------------------------------------------------------------
  // What the synchroniser promises
  // ---------------------------------------------------------------------------

  /**
   * The profile id is `Null` exactly when no entity is an active prisoner or
   * the first one has no `entity_system` row; otherwise it is that row's
   * `user_profile_id`.
   */
  lemma ActiveProfileCases(db: Db)
    ensures var e := FirstActivePrisoner(db.entity);
      && (e.None? ==> ActiveProfileId(db) == Null)
      && (e.Some? && SystemById(db.entitySystem, db.entity[e.value].entitySystemId).None? ==> ActiveProfileId(db) == Null)
      && (e.Some? && SystemById(db.entitySystem, db.entity[e.value].entitySystemId).Some? ==>
            ActiveProfileId(db) == db.entitySystem[SystemById(db.entitySystem, db.entity[e.value].entitySystemId).value].userProfileId)
  {
  }

  /** Only the first active prisoner counts: a second one is never consulted. */
  lemma FirstPrisonerWins(db: Db, extra: EntityRow)
    requires FirstActivePrisoner(db.entity).Some?
    ensures ActiveProfileId(db.(entity := db.entity + [extra])) == ActiveProfileId(db)
  {
    FirstPrisonerOfLonger(db.entity, extra);
  }

  lemma {:induction false} FirstPrisonerOfLonger(rows: seq<EntityRow>, extra: EntityRow)
    requires FirstActivePrisoner(rows).Some?
    ensures FirstActivePrisoner(rows + [extra]) == FirstActivePrisoner(rows)
    decreases |rows|
  {
    if !IsActivePrisoner(rows[0]) {
      assert (rows + [extra])[1..] == rows[1..] + [extra];
      FirstPrisonerOfLonger(rows[1..], extra);
    }
  }

  /**
   * After attaching, every quest has `data`: the first matching blob as hex,
   * or `Null` when there is no row or the blob is NULL; no other field changes.
   */
  lemma WithDataFields(db: Db, q: Quest, k: string)
    ensures Get(WithData(db, q), "data") == Some(DataFor(db, GetOr(q, "id", Null)))
    ensures k != "data" ==> Get(WithData(db, q), k) == Get(q, k)
  {
    GetSet(q, "data", DataFor(db, GetOr(q, "id", Null)), "data");
    GetSet(q, "data", DataFor(db, GetOr(q, "id", Null)), k);
  }

  /** A quest's `data` is `Null` exactly when no tracking row matches its id or the first match has a NULL blob. */
  lemma DataNullCases(db: Db, id: Value)
    ensures DataFor(db, id) == Null <==>
      TrackingFor(db.trackingData, id).None? || db.trackingData[TrackingFor(db.trackingData, id).value].data.None?
  {
  }

  /** A quest without an id, or with a NULL one, never matches a tracking row. */
  lemma NoIdNoData(db: Db, q: Quest)
    requires GetOr(q, "id", Null) == Null
    ensures Get(WithData(db, q), "data") == Some(Null)
  {
    WithDataFields(db, q, "data");
  }

  /** When a blob is attached it is lower-case hex, twice as long as the blob, and decodes back to it. */
  lemma DataDecodes(db: Db, id: Value)
    requires TrackingFor(db.trackingData, id).Some?
    requires db.trackingData[TrackingFor(db.trackingData, id).value].data.Some?
    ensures var blob := db.trackingData[TrackingFor(db.trackingData, id).value].data.value;
      && DataFor(db, id).Str?
      && |DataFor(db, id).s| == 2 * |blob|
      && (forall i :: 0 <= i < |DataFor(db, id).s| ==> IsHexDigit(DataFor(db, id).s[i]))
      && Decode(DataFor(db, id).s) == Some(blob)
  {
    DecodeEncode(db.trackingData[TrackingFor(db.trackingData, id).value].data.value);
  }

  /** Each quest of the profile comes from one of its rows, and every such row gives one. */
  lemma {:induction false} ActiveQuestsOfProfile(rows: seq<ActiveQuestRow>, profile: Value, row: ActiveQuestRow)
    ensures row in rows && SqlEq(row.userProfileId, profile) ==> QuestOfRow(row) in ActiveQuests(rows, profile)
    ensures forall q :: q in ActiveQuests(rows, profile) ==>
      exists j :: 0 <= j < |rows| && SqlEq(rows[j].userProfileId, profile) && q == QuestOfRow(rows[j])
    decreases |rows|
  {
    if rows != [] {
      ActiveQuestsOfProfile(rows[1..], profile, row);
      var head := if SqlEq(rows[0].userProfileId, profile) then [QuestOfRow(rows[0])] else [];
      assert ActiveQuests(rows, profile) == head + ActiveQuests(rows[1..], profile);
      forall q | q in ActiveQuests(rows, profile)
        ensures exists j :: 0 <= j < |rows| && SqlEq(rows[j].userProfileId, profile) && q == QuestOfRow(rows[j])
      {
        if q in ActiveQuests(rows[1..], profile) {
          var j :| 0 <= j < |rows[1..]| && SqlEq(rows[1..][j].userProfileId, profile) && q == QuestOfRow(rows[1..][j]);
          assert rows[j + 1] == rows[1..][j];
        } else {
          assert q in head;
        }
      }
    }
  }

  /** A cycle with a falsy profile id writes the cleared snapshot; otherwise the id, its world time and its quests. */
  lemma CycleCases(db: Db)
    ensures var s := CycleSnapshot(db);
      && (!Truthy(ActiveProfileId(db)) <==> s == ClearedSnapshot())
      && (Truthy(ActiveProfileId(db)) ==>
            && s.userProfileId == ActiveProfileId(db)
            && s.timestamp == WorldTimestamp(db, ActiveProfileId(db))
            && |s.quests| == |ActiveQuests(db.activeQuest, ActiveProfileId(db))|
            && forall i :: 0 <= i < |s.quests| ==>
                 Get(s.quests[i], "data").Some?
                 && Get(s.quests[i], "id") == Get(ActiveQuests(db.activeQuest, ActiveProfileId(db))[i], "id"))
  {
    var profile := ActiveProfileId(db);
    if Truthy(profile) {
      var qs := ActiveQuests(db.activeQuest, profile);
      forall i | 0 <= i < |qs| ensures Get(WithData(db, qs[i]), "data").Some? && Get(WithData(db, qs[i]), "id") == Get(qs[i], "id") {
        WithDataFields(db, qs[i], "id");
      }
    }
  }

  /**
   * Whenever a profile is found, the `entity_system` row it was read from
   * matches it, so the timestamp query always finds a row: the snapshot's
   * time is the `timestamp` column of the profile's first row, and it is
   * null exactly when that column is NULL.
   */
  lemma TruthyProfileHasRow(db: Db)
    requires Truthy(ActiveProfileId(db))
    ensures var r := SystemByProfile(db.entitySystem, ActiveProfileId(db));
      && r.Some?
      && CycleSnapshot(db).timestamp == db.entitySystem[r.value].timestamp
      && (CycleSnapshot(db).timestamp == Null <==> db.entitySystem[r.value].timestamp == Null)
  {
  }

  /**
   * A profile whose first `entity_system` row has a NULL `timestamp` column
   * gets a snapshot with an id and a null time.
   */
  lemma IdWithoutTime()
    ensures var db := Db([EntityRow(Str("FPrisonerEntity"), Int(0), Int(7))], [EntitySystemRow(Int(7), Int(3), Null)], [], []);
      var s := CycleSnapshot(db);
      s.userProfileId == Int(3) && s.timestamp == Null
  {
  }

  /** The configuration keeps every key and value of a user object and adds only the missing defaults. */
  lemma {:induction false} FillDefaultsKeeps(d: Dict<Json>, defaults: Dict<Json>, k: string)
    requires UniqueKeys(defaults)
    ensures HasKey(d, k) ==> Get(FillDefaults(d, defaults), k) == Get(d, k)
    ensures !HasKey(d, k) && HasKey(defaults, k) ==> Get(FillDefaults(d, defaults), k) == Get(defaults, k)
    ensures !HasKey(d, k) && !HasKey(defaults, k) ==> Get(FillDefaults(d, defaults), k) == None
    decreases |defaults|
  {
    if defaults != [] {
      var (k0, v0) := defaults[0];
      var d1 := if HasKey(d, k0) then d else Set(d, k0, v0);
      assert UniqueKeys(defaults[1..]);
      GetSet(d, k0, v0, k);
      FillDefaultsKeeps(d1, defaults[1..], k);
      assert HasKey(defaults, k) <==> k == k0 || HasKey(defaults[1..], k) by {
        assert Keys(defaults) == [k0] + Keys(defaults[1..]);
      }
      if k == k0 {
        var tail := defaults[1..];
        forall j | 0 <= j < |tail| ensures Keys(tail)[j] != k {
          assert tail[j] == defaults[j + 1];
        }
        assert !HasKey(tail, k);
      }
    }
  }

  /** For the synchroniser: the user's `scan_interval` wins, and 4 fills it in when missing. */
  lemma ScanIntervalDefault(d: Dict<Json>)
    ensures var r := SyncConfigOf(Parsed(JObj(d))).fields;
      && Get(r, "scan_interval") == (if HasKey(d, "scan_interval") then Get(d, "scan_interval") else Some(JInt(4)))
      && forall k :: HasKey(d, k) ==> Get(r, k) == Get(d, k)
  {
    forall k | HasKey(d, k) ensures Get(FillDefaults(d, SyncDefaults), k) == Get(d, k) {
      FillDefaultsKeeps(d, SyncDefaults, k);
    }
    FillDefaultsKeeps(d, SyncDefaults, "scan_interval");
  }
}
