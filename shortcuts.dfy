/**
 * What each keyboard-shortcut action does to the `filter` and `sort` sections of
 * the configuration: toggling the filter or one sector flag, setting the sort
 * order, and cycling, adding and clearing sort keys drawn from the fixed list
 * of seven options.
 */
module Shortcuts {
  import opened Wrappers
  import opened Text
  import opened Values
  import opened QuestSort
  import opened Config
  import opened QuestFilter

  /**
   * The result of an action: an action name the handler does not know (nothing
   * changes and nothing is saved), an action that raised on an ill-shaped
   * section (the handler reports it; nothing changes and nothing is saved), or
   * the new configuration.
   */
  datatype Outcome = Unknown | Failed | Applied(cfg: WidgetConfig)

  const SectorPrefix: string := "toggle_sector_"

  // ---------------------------------------------------------------------------
  // The filter section
  // ---------------------------------------------------------------------------

  /** `toggle_filter`: `enabled` becomes the negation of its truth value, a missing one counting as false. */
  function ToggleFilter(f: FilterConfig): (r: FilterConfig)
    ensures Enabled(r) == !Enabled(f)
    ensures r.enabled.Some? && r.sectors == f.sectors
  {
    f.(enabled := Some(Bool(!Enabled(f))))
  }

  /** `action_name.replace("toggle_sector_", "").upper()`: every occurrence of the prefix is removed. */
  function SectorCode(action: string): string {
    Upper(Replace(action, SectorPrefix, ""))
  }

  /** The sector map a toggle starts from: the existing map, or a new empty one. */
  function SectorEntries(f: FilterConfig): Dict<Value>
    requires !(f.sectors.Some? && f.sectors.value.NotAMap?)
  {
    if f.sectors.None? then [] else f.sectors.value.entries
  }

  /**
   * `sectors = cfg["filter"].setdefault("sectors", {}); sectors[code] = not sectors.get(code, False)`;
   * `None` when `sectors` holds something other than a map, where the item assignment raises.
   */
  function ToggleSector(f: FilterConfig, code: string): (r: Option<FilterConfig>)
    ensures r.Some? <==> !(f.sectors.Some? && f.sectors.value.NotAMap?)
    ensures r.Some? ==> r.value.enabled == f.enabled && r.value.sectors.Some? && r.value.sectors.value.SectorMap?
  {
    if f.sectors.Some? && f.sectors.value.NotAMap? then None
    else
      var d := SectorEntries(f);
      Some(f.(sectors := Some(SectorMap(Set(d, code, Bool(!Truthy(GetOr(d, code, Bool(false)))))))))
  }

  // ---------------------------------------------------------------------------
  // The sort section
  // ---------------------------------------------------------------------------

  /** Position of the first `x` in `s`, or -1 (`s.index(x) if x in s else -1`). */
  function IndexOf(s: seq<string>, x: string): (r: int)
    ensures -1 <= r < |s|
    ensures r == -1 <==> x !in s
    ensures r >= 0 ==> s[r] == x && x !in s[..r]
    decreases |s|
  {
    if s == [] then -1
    else if s[0] == x then 0
    else
      var t := IndexOf(s[1..], x);
      assert t >= 0 ==> s[..t + 1] == [s[0]] + s[1..][..t];
      if t == -1 then -1 else t + 1
  }

  lemma OptionsDistinct()
    ensures forall i, j :: 0 <= i < j < |SortKeyOptions| ==> SortKeyOptions[i] != SortKeyOptions[j]
  {
  }

  /**
   * `SORT_KEY_OPTIONS[(idx + 1) % len(SORT_KEY_OPTIONS)]` for the position `idx`
   * of `key`: the next option, wrapping from the last to the first, and the first
   * option for a key that is not in the list.
   */
  function Successor(key: string): (r: string)
    ensures r in SortKeyOptions
    ensures key !in SortKeyOptions ==> r == SortKeyOptions[0]
  {
    var idx := IndexOf(SortKeyOptions, key);
    SortKeyOptions[(idx + 1) % |SortKeyOptions|]
  }

  /** The position after `i` in the option list, wrapping round. */
  function Next(i: nat): nat {
    if i + 1 == |SortKeyOptions| then 0 else i + 1
  }

  /** The successor of the option at `i` is the option at the next position. */
  lemma SuccessorOf(i: nat)
    requires i < |SortKeyOptions|
    ensures Successor(SortKeyOptions[i]) == SortKeyOptions[Next(i)]
  {
    OptionPosition(i);
    SuccessorAt(SortKeyOptions[i]);
    NextPosition(i);
  }

  lemma SuccessorAt(key: string)
    ensures Successor(key) == SortKeyOptions[(IndexOf(SortKeyOptions, key) + 1) % 7]
  {
  }

  lemma NextPosition(i: nat)
    requires i < 7
    ensures (i + 1) % 7 == Next(i)
  {
    assert |SortKeyOptions| == 7;
  }

  lemma OptionPosition(i: nat)
    requires i < |SortKeyOptions|
    ensures IndexOf(SortKeyOptions, SortKeyOptions[i]) == i
  {
    OptionsDistinct();
    IndexOfDistinct(SortKeyOptions, i);
  }

  /** In a list without repetitions, the position of an element is where it stands. */
  lemma {:induction false} IndexOfDistinct(s: seq<string>, i: nat)
    requires i < |s|
    requires forall a, b :: 0 <= a < b < |s| ==> s[a] != s[b]
    ensures IndexOf(s, s[i]) == i
    decreases i
  {
    if i > 0 {
      var t := s[1..];
      assert t[i - 1] == s[i];
      assert s[0] != s[i];
      IndexOfDistinct(t, i - 1);
    }
  }

  /**
   * `cycle_sort_key`: the last key is replaced by its successor, an empty or
   * missing list becomes `["id"]`; `None` for a key given as a string, whose
   * item assignment (or `append`) raises.
   */
  function CycleKeys(keys: SortKeys): (r: Option<SortKeys>)
    ensures r.Some? <==> !keys.SingleKey?
    ensures r.Some? ==> r.value.KeyList?
  {
    match keys
    case SingleKey(_) => None
    case NoKeys => Some(KeyList([SortKeyOptions[0]]))
    case KeyList(ks) =>
      if ks == [] then Some(KeyList([SortKeyOptions[0]]))
      else Some(KeyList(ks[..|ks| - 1] + [Successor(ks[|ks| - 1])]))
  }

  /**
   * The position of the first option from position `i` on that `keys` does not
   * hold, or the length of the option list when there is none.
   */
  function FirstUnusedFrom(keys: seq<string>, i: nat): (r: nat)
    requires i <= |SortKeyOptions|
    ensures i <= r <= |SortKeyOptions|
    ensures r < |SortKeyOptions| ==> SortKeyOptions[r] !in keys
    ensures forall m :: i <= m < r ==> SortKeyOptions[m] in keys
    decreases |SortKeyOptions| - i
  {
    if i == |SortKeyOptions| then i
    else if SortKeyOptions[i] !in keys then i
    else FirstUnusedFrom(keys, i + 1)
  }

  /** The first option, in list order, that `keys` does not hold. */
  function FirstUnused(keys: seq<string>): Option<string> {
    var j := FirstUnusedFrom(keys, 0);
    if j < |SortKeyOptions| then Some(SortKeyOptions[j]) else None
  }

  /** `for k in SORT_KEY_OPTIONS: if k not in keys: keys.append(k); break`, reduced to the key it appends. */
  method FirstUnusedOption(keys: seq<string>) returns (r: Option<string>)
    ensures r == FirstUnused(keys)
  {
    r := None;
    var i := 0;
    while i < |SortKeyOptions|
      invariant 0 <= i <= |SortKeyOptions|
      invariant FirstUnusedFrom(keys, i) == FirstUnusedFrom(keys, 0)
    {
      var k := SortKeyOptions[i];
      if k !in keys {
        r := Some(k);
        break;
      }
      i := i + 1;
    }
  }

  /** Every option occurs as a substring of `s` (`k in keys` on a string). */
  predicate EveryOptionOccursIn(s: string) {
    forall i :: 0 <= i < |SortKeyOptions| ==> Occurs(SortKeyOptions[i], s)
  }

  /**
   * `add_sort_key`: the first unused option is appended; a list already holding
   * all seven is left as it is.  On a key given as a string the membership test
   * is a substring test and the `append` raises, so the action fails unless every
   * option occurs in the string.
   */
  function AddKey(keys: SortKeys): (r: Option<SortKeys>)
    ensures keys.SingleKey? ==> (r.Some? <==> EveryOptionOccursIn(keys.name)) && (r.Some? ==> r.value == keys)
    ensures !keys.SingleKey? ==> r.Some? && r.value.KeyList?
  {
    match keys
    case SingleKey(s) => if EveryOptionOccursIn(s) then Some(keys) else None
    case NoKeys => Some(KeyList([SortKeyOptions[0]]))
    case KeyList(ks) =>
      match FirstUnused(ks)
      case Some(k) => Some(KeyList(ks + [k]))
      case None => Some(keys)
  }

  /**
   * `clear_sort_keys`: a list of more than one key shrinks to its first key; for
   * a string of more than one character the first character becomes the list.
   */
  function ClearKeys(keys: SortKeys): (r: SortKeys)
    ensures |KeyNames(SortConfig(r, None))| == if KeyNames(SortConfig(keys, None)) == [] then 0 else 1
    ensures keys.KeyList? && keys.names != [] ==> KeyNames(SortConfig(r, None)) == [keys.names[0]]
  {
    match keys
    case KeyList(ks) => if |ks| > 1 then KeyList([ks[0]]) else keys
    case SingleKey(s) => if |s| > 1 then KeyList([[s[0]]]) else keys
    case NoKeys => keys
  }

  // ---------------------------------------------------------------------------
  // The dispatcher
  // ---------------------------------------------------------------------------

  predicate KnownAction(action: string) {
    || action == "toggle_filter" || StartsWith(action, SectorPrefix)
    || action == "sort_order_asc" || action == "sort_order_desc"
    || action == "cycle_sort_key" || action == "add_sort_key" || action == "clear_sort_keys"
  }

  /** `_on_shortcut_triggered(action_name, ...)` as far as it changes the configuration. */
  function ApplyShortcut(cfg: WidgetConfig, action: string): (r: Outcome)
    ensures r.Unknown? <==> !KnownAction(action)
    ensures r.Applied? ==> r.cfg.(filter := cfg.filter, sort := cfg.sort) == cfg
  {
    if action == "toggle_filter" then Applied(cfg.(filter := ToggleFilter(cfg.filter)))
    else if StartsWith(action, SectorPrefix) then
      match ToggleSector(cfg.filter, SectorCode(action))
      case Some(f) => Applied(cfg.(filter := f))
      case None => Failed
    else if action == "sort_order_asc" then Applied(cfg.(sort := cfg.sort.(order := Some("asc"))))
    else if action == "sort_order_desc" then Applied(cfg.(sort := cfg.sort.(order := Some("desc"))))
    else if action == "cycle_sort_key" then
      match CycleKeys(cfg.sort.keys)
      case Some(k) => Applied(cfg.(sort := cfg.sort.(keys := k)))
      case None => Failed
    else if action == "add_sort_key" then
      match AddKey(cfg.sort.keys)
      case Some(k) => Applied(cfg.(sort := cfg.sort.(keys := k)))
      case None => Failed
    else if action == "clear_sort_keys" then Applied(cfg.(sort := cfg.sort.(keys := ClearKeys(cfg.sort.keys))))
    else Unknown
  }

  // ---------------------------------------------------------------------------
  // What the actions promise
  // ---------------------------------------------------------------------------

  /** The flag of the toggled sector is negated (a missing one counting as false); no other flag changes. */
  lemma ToggleSectorFlips(f: FilterConfig, code: string, other: string)
    requires !(f.sectors.Some? && f.sectors.value.NotAMap?)
    ensures var r := ToggleSector(f, code).value.sectors.value.entries;
      && Truthy(GetOr(r, code, Bool(false))) == !Truthy(GetOr(SectorEntries(f), code, Bool(false)))
      && (other != code ==> Get(r, other) == Get(SectorEntries(f), other))
  {
    var d := SectorEntries(f);
    var v := Bool(!Truthy(GetOr(d, code, Bool(false))));
    GetSet(d, code, v, code);
    GetSet(d, code, v, other);
  }

  /** Some entry of `d` with a true flag has `c` as its upper-cased key. */
  predicate ActiveIn(d: Dict<Value>, c: string) {
    exists i :: 0 <= i < |d| && Truthy(d[i].1) && Upper(d[i].0) == c
  }

  lemma ActiveSectorsOfMap(f: FilterConfig, c: string)
    requires f.sectors.Some? && f.sectors.value.SectorMap?
    ensures c in ActiveSectorsOf(f) <==> ActiveIn(f.sectors.value.entries, c)
  {
    var d := f.sectors.value.entries;
    if ActiveIn(d, c) {
      var i :| 0 <= i < |d| && Truthy(d[i].1) && Upper(d[i].0) == c;
      assert Upper(d[i].0) in ActiveSectorsOf(f);
    }
  }

  /**
   * After the runtime set is reloaded, the toggled sector is active exactly when
   * its flag was false before, provided the map holds no second spelling of the
   * code in another letter case.
   */
  lemma ToggleSectorActive(f: FilterConfig, code: string)
    requires !(f.sectors.Some? && f.sectors.value.NotAMap?)
    requires UniqueKeys(SectorEntries(f)) && Upper(code) == code
    requires forall i :: 0 <= i < |SectorEntries(f)| && Upper(SectorEntries(f)[i].0) == code ==> SectorEntries(f)[i].0 == code
    ensures code in ActiveSectorsOf(ToggleSector(f, code).value) <==> !Truthy(GetOr(SectorEntries(f), code, Bool(false)))
  {
    var d := SectorEntries(f);
    var v := Bool(!Truthy(GetOr(d, code, Bool(false))));
    var r := Set(d, code, v);
    var g := ToggleSector(f, code).value;
    ActiveSectorsOfMap(g, code);
    SetItems(d, code, v);
    SetKeepsUnique(d, code, v);
    GetSet(d, code, v, code);
    if v.b {
      assert HasKey(r, code);
      var i :| 0 <= i < |r| && Keys(r)[i] == code;
      GetFirst(r, i);
      assert Truthy(r[i].1) && Upper(r[i].0) == code;
    } else {
      forall i | 0 <= i < |r| && Upper(r[i].0) == code ensures !Truthy(r[i].1) {
        assert r[i] == (code, v);
      }
    }
  }

  /** Toggling one sector leaves every other sector's runtime state as it was. */
  lemma ToggleSectorKeepsOthers(f: FilterConfig, code: string, other: string)
    requires !(f.sectors.Some? && f.sectors.value.NotAMap?)
    requires UniqueKeys(SectorEntries(f)) && Upper(code) == code && other != code
    ensures other in ActiveSectorsOf(ToggleSector(f, code).value) <==> other in ActiveSectorsOf(f)
  {
    var d := SectorEntries(f);
    var v := Bool(!Truthy(GetOr(d, code, Bool(false))));
    var r := Set(d, code, v);
    var g := ToggleSector(f, code).value;
    ActiveSectorsOfMap(g, other);
    if f.sectors.Some? {
      ActiveSectorsOfMap(f, other);
    }
    SetItems(d, code, v);
    if ActiveIn(r, other) {
      var i :| 0 <= i < |r| && Truthy(r[i].1) && Upper(r[i].0) == other;
      assert r[i] == d[i];
    }
    if ActiveIn(d, other) {
      var i :| 0 <= i < |d| && Truthy(d[i].1) && Upper(d[i].0) == other;
      assert d[i].0 != code;
      assert r[i] == d[i];
    }
  }

  /**
   * A sector action names its code after the prefix; the code is upper-cased.
   * A code without a `t` cannot hold the prefix text, which `str.replace`
   * would remove from it as well.
   */
  lemma SectorCodeOfAction(code: string)
    requires 't' !in code
    ensures SectorCode(SectorPrefix + code) == Upper(code)
  {
    var s := SectorPrefix + code;
    assert s[..|SectorPrefix|] == SectorPrefix;
    assert s[|SectorPrefix|..] == code;
    ReplaceSkipsPrefix(code, [], SectorPrefix, "");
    assert code + [] == code;
  }

  /** Cycling wraps the last option round to the first. */
  lemma CycleWraps(ks: seq<string>)
    requires |ks| > 0 && ks[|ks| - 1] == "data"
    ensures CycleKeys(KeyList(ks)) == Some(KeyList(ks[..|ks| - 1] + ["id"]))
  {
    assert SortKeyOptions[6] == "data" && SortKeyOptions[0] == "id";
    SuccessorOf(6);
    assert Next(6) == 0;
  }

  /** A key outside the options is replaced by the first option; the earlier keys stay. */
  lemma CycleUnknownKey(ks: seq<string>)
    requires |ks| > 0 && ks[|ks| - 1] !in SortKeyOptions
    ensures CycleKeys(KeyList(ks)) == Some(KeyList(ks[..|ks| - 1] + ["id"]))
  {
  }

  /** Seven cycles bring an option back to itself, passing through every other option on the way. */
  lemma CycleSevenTimes(i: nat)
    requires i < |SortKeyOptions|
    ensures Successor(Successor(Successor(Successor(Successor(Successor(Successor(SortKeyOptions[i]))))))) == SortKeyOptions[i]
  {
    SuccessorOf(i);
    SuccessorOf(Next(i));
    SuccessorOf(Next(Next(i)));
    SuccessorOf(Next(Next(Next(i))));
    SuccessorOf(Next(Next(Next(Next(i)))));
    SuccessorOf(Next(Next(Next(Next(Next(i))))));
    SuccessorOf(Next(Next(Next(Next(Next(Next(i)))))));
  }

  /** Starting from the first `i` options, adding a key appends the next option. */
  lemma AddKeyExtendsOptions(i: nat)
    requires i < |SortKeyOptions|
    ensures AddKey(KeyList(SortKeyOptions[..i])) == Some(KeyList(SortKeyOptions[..i + 1]))
  {
    OptionsDistinct();
    var ks := SortKeyOptions[..i];
    var j := FirstUnusedFrom(ks, 0);
    assert SortKeyOptions[i] !in ks;
    assert forall m :: 0 <= m < i ==> ks[m] == SortKeyOptions[m];
    assert j == i;
    assert ks + [SortKeyOptions[i]] == SortKeyOptions[..i + 1];
  }

  /** With all seven options present, adding a key changes nothing. */
  lemma AddKeyWhenFull()
    ensures AddKey(KeyList(SortKeyOptions)) == Some(KeyList(SortKeyOptions))
  {
    assert forall m :: 0 <= m < |SortKeyOptions| ==> SortKeyOptions[m] in SortKeyOptions;
  }

  /** Clearing keeps the first key only, and clearing again changes nothing. */
  lemma ClearKeepsFirst(ks: seq<string>)
    requires |ks| > 0
    ensures ClearKeys(KeyList(ks)) == KeyList([ks[0]])
    ensures ClearKeys(ClearKeys(KeyList(ks))) == ClearKeys(KeyList(ks))
  {
  }

  /** An order action sets the order and leaves the keys as they are. */
  lemma OrderActions(cfg: WidgetConfig)
    ensures ApplyShortcut(cfg, "sort_order_asc") == Applied(cfg.(sort := SortConfig(cfg.sort.keys, Some("asc"))))
    ensures ApplyShortcut(cfg, "sort_order_desc") == Applied(cfg.(sort := SortConfig(cfg.sort.keys, Some("desc"))))
    ensures Ascending(ApplyShortcut(cfg, "sort_order_asc").cfg.sort)
    ensures !Ascending(ApplyShortcut(cfg, "sort_order_desc").cfg.sort)
  {
    NotSectorAction("sort_order_asc");
    NotSectorAction("sort_order_desc");
    OrderWords();
  }

  lemma NotSectorAction(action: string)
    requires |action| > 0 && action[0] != SectorPrefix[0]
    ensures !StartsWith(action, SectorPrefix)
  {
    if |SectorPrefix| <= |action| {
      assert action[..|SectorPrefix|][0] == action[0];
    }
  }

  /** Toggling the filter twice restores whether it is enabled. */
  lemma ToggleFilterTwice(cfg: WidgetConfig)
    ensures var once := ApplyShortcut(cfg, "toggle_filter");
      && once.Applied? && Enabled(once.cfg.filter) == !Enabled(cfg.filter)
      && Enabled(ApplyShortcut(once.cfg, "toggle_filter").cfg.filter) == Enabled(cfg.filter)
  {
  }
}
