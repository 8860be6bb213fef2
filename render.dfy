/**
 * What one render pass computes before it touches any label: the quests shown
 * (filtered, then sorted), the time shown in the header, the header globals,
 * the number of labels needed, and for each shown quest its remaining seconds,
 * written into the quest as the formatted `time_remaining` field.
 */
module Render {
  import opened Wrappers
  import opened Text
  import opened Values
  import opened QuestSort
  import opened Config
  import opened QuestFilter
  import opened SimClock
  import Duration

  // ---------------------------------------------------------------------------
  // `sorted(list(self._active_sectors))`
  // ---------------------------------------------------------------------------

  predicate StrLess(a: string, b: string) {
    StrCmp(a, b) == Less
  }

  predicate StrictlySorted(s: seq<string>) {
    forall i, j :: 0 <= i < j < |s| ==> StrLess(s[i], s[j])
  }

  /** `x` put into its place in a strictly sorted list that does not hold it. */
  function InsertStr(x: string, s: seq<string>): (r: seq<string>)
    ensures |r| == |s| + 1 && forall y :: y in r <==> y == x || y in s
    decreases |s|
  {
    if s == [] then [x]
    else if StrLess(x, s[0]) then [x] + s
    else [s[0]] + InsertStr(x, s[1..])
  }

  lemma {:induction false} InsertStrSorted(x: string, s: seq<string>)
    requires StrictlySorted(s) && x !in s
    ensures StrictlySorted(InsertStr(x, s))
    decreases |s|
  {
    if s != [] {
      if StrLess(x, s[0]) {
        forall j | 0 < j < |s| ensures StrLess(x, s[j]) {
          StrCmpTrans(x, s[0], s[j]);
        }
      } else {
        StrCmpProperties(x, s[0]);
        var t := InsertStr(x, s[1..]);
        InsertStrSorted(x, s[1..]);
        assert forall y :: y in t ==> StrLess(s[0], y) by {
          forall y | y in t ensures StrLess(s[0], y) {
            if y != x {
              var j :| 0 <= j < |s[1..]| && s[1..][j] == y;
              assert s[j + 1] == y;
            }
          }
        }
        var r := [s[0]] + t;
        forall i, j | 0 <= i < j < |r| ensures StrLess(r[i], r[j]) {
          if i > 0 {
            assert r[i] == t[i - 1] && r[j] == t[j - 1];
          } else {
            assert r[j] == t[j - 1] && r[j] in t;
          }
        }
      }
    }
  }

  /** The sorted list of a set of names (the order Python's `sorted` produces). */
  ghost function SortedListOf(names: set<string>): (r: seq<string>)
    ensures StrictlySorted(r) && |r| == |names| && forall x :: x in r <==> x in names
    decreases |names|
  {
    if names == {} then []
    else
      var x :| x in names;
      var rest := SortedListOf(names - {x});
      InsertStrSorted(x, rest);
      InsertStr(x, rest)
  }

  /** Two strictly sorted lists with the same elements are the same list. */
  lemma {:induction false} StrictlySortedUnique(a: seq<string>, b: seq<string>)
    requires StrictlySorted(a) && StrictlySorted(b)
    requires forall x :: x in a <==> x in b
    ensures a == b
    decreases |a|
  {
    if a == [] {
      NoMembersEmpty(b);
    } else {
      assert a[0] in b && b != [];
      assert b[0] in a;
      var x, y := a[0], b[0];
      assert x == y by {
        var m :| 0 <= m < |a| && a[m] == y;
        var k :| 0 <= k < |b| && b[k] == x;
        if m > 0 && k > 0 {
          assert StrLess(x, y) && StrLess(y, x);
          StrCmpProperties(x, y);
        }
      }
      assert a == [x] + a[1..] && b == [x] + b[1..];
      forall z | z in a[1..] ensures z in b[1..] {
        TailAfterHead(a, z);
        assert z in b && z != b[0];
      }
      forall z | z in b[1..] ensures z in a[1..] {
        TailAfterHead(b, z);
        assert z in a && z != a[0];
      }
      StrictlySortedUnique(a[1..], b[1..]);
    }
  }

  lemma NoMembersEmpty(s: seq<string>)
    ensures (forall x :: x !in s) ==> s == []
  {
    if s != [] {
      assert s[0] in s;
    }
  }

  /** In a strictly sorted list, what follows the head differs from it. */
  lemma TailAfterHead(s: seq<string>, z: string)
    requires StrictlySorted(s) && s != [] && z in s[1..]
    ensures z != s[0]
  {
    var m :| 0 <= m < |s[1..]| && s[1..][m] == z;
    assert StrLess(s[0], s[m + 1]);
    StrCmpProperties(s[0], z);
  }

  /** Sorting the active-sector set: one name at a time, in whatever order the set yields them. */
  method SortedSectors(names: set<string>) returns (r: seq<string>)
    ensures r == SortedListOf(names)
  {
    r := [];
    var rest := names;
    while rest != {}
      invariant StrictlySorted(r)
      invariant forall x :: x in r <==> x in names && x !in rest
      invariant rest <= names
      decreases |rest|
    {
      var x :| x in rest;
      InsertStrSorted(x, r);
      r := InsertStr(x, r);
      rest := rest - {x};
    }
    StrictlySortedUnique(r, SortedListOf(names));
  }

  // ---------------------------------------------------------------------------
  // The header globals
  // ---------------------------------------------------------------------------

  /** `", ".join(...)` of the sorted active sectors, or `"ALL"` when there is none. */
  function SectorsText(sorted: seq<string>): string {
    if sorted == [] then "ALL" else Join(sorted, ", ")
  }

  /** `", ".join(keys) if keys else ""`; joining a key given as a string joins its characters. */
  function SortKeysText(keys: SortKeys): string {
    match keys
    case NoKeys => ""
    case KeyList(names) => if names == [] then "" else Join(names, ", ")
    case SingleKey(name) =>
      if name == [] then "" else Join(seq(|name|, i requires 0 <= i < |name| => [name[i]]), ", ")
  }

  function TimestampValue(t: Option<int>): Value {
    if t.Some? then Int(t.value) else Null
  }

  /**
   * The globals every line can use.  `activeRepr` is how Python prints the
   * active-sector set, whose order follows string hashing and is not modelled.
   */
  function Globals(count: nat, shownTs: Option<int>, cfg: WidgetConfig, sorted: seq<string>, activeRepr: string): Dict<Value> {
    [ ("quest_count", Int(count)),
      ("timestamp", TimestampValue(shownTs)),
      ("filter_enabled", Str(if Enabled(cfg.filter) then "True" else "False")),
      ("filter_active_sectors", Str(SectorsText(sorted))),
      ("sort_keys", Str(SortKeysText(cfg.sort.keys))),
      ("sort_order", Str(cfg.sort.order.GetOr(""))),
      ("active_sectors", Str(activeRepr)) ]
  }

  /** `max(1, len(header) + len(quests) * lines_per_quest)`, one quest line at least. */
  function RequiredLabels(headerLines: nat, count: nat, questLines: nat): (r: nat)
    ensures r >= 1 && r >= headerLines + count * questLines
    ensures headerLines + count > 0 ==> r == headerLines + count * (if questLines == 0 then 1 else questLines)
  {
    var perQuest := if questLines == 0 then 1 else questLines;
    var n := headerLines + count * perQuest;
    if n < 1 then 1 else n
  }

  // ---------------------------------------------------------------------------
  // The "no active quests" placeholder
  // ---------------------------------------------------------------------------

  /**
   * Where the pass writes the placeholder when no quest is shown, as written:
   * always label 1, which fails with an index error unless at least two labels
   * exist (`labels` is how many the widget holds after this pass created the
   * missing ones).
   */
  function PlaceholderAsWritten(labels: nat): (r: Option<nat>)
    ensures r.Some? <==> labels >= 2
    ensures r.Some? ==> r.value == 1
  {
    if labels >= 2 then Some(1) else None
  }

  /** With the built-in four header lines, the placeholder replaces the second header line. */
  lemma PlaceholderHidesHeaderLine(labelsBefore: nat)
    ensures var labels := if labelsBefore > RequiredLabels(DefaultConfig().headerLines, 0, DefaultConfig().questLines)
      then labelsBefore else RequiredLabels(DefaultConfig().headerLines, 0, DefaultConfig().questLines);
      && PlaceholderAsWritten(labels) == Some(1)
      && PlaceholderAsWritten(labels).value < DefaultConfig().headerLines
  {
  }

  /** With no header lines, the first pass over an empty list has one label and no label 1. */
  lemma PlaceholderMissingLabel(questLines: nat)
    ensures PlaceholderAsWritten(RequiredLabels(0, 0, questLines)).None?
  {
  }

  /** The label just after the header, where the placeholder belongs. */
  function PlaceholderSlot(headerLines: nat): nat {
    headerLines
  }

  /** Labels to show: the header and every quest's lines, or the header and the placeholder. */
  function LabelsNeeded(headerLines: nat, count: nat, questLines: nat): (r: nat)
    ensures count == 0 ==> PlaceholderSlot(headerLines) < r
    ensures r >= RequiredLabels(headerLines, count, questLines)
    ensures count > 0 ==> r == RequiredLabels(headerLines, count, questLines)
  {
    if count == 0 then headerLines + 1 else RequiredLabels(headerLines, count, questLines)
  }

  /** The corrected placeholder always has a label, and it is never a header label. */
  lemma PlaceholderAfterHeader(headerLines: nat, questLines: nat)
    ensures var slot := PlaceholderSlot(headerLines);
      slot >= headerLines && slot < LabelsNeeded(headerLines, 0, questLines)
  {
  }

  // ---------------------------------------------------------------------------
  // The quest lines
  // ---------------------------------------------------------------------------

  /**
   * `int(completion - current_ts) if current_ts else 0`, with a falsy deadline
   * read as 0; `None` for a text deadline, which the subtraction rejects.
   */
  function Remaining(q: Quest, shownTs: Option<int>): (r: Option<int>)
    ensures shownTs.None? || shownTs.value == 0 ==> r == Some(0)
  {
    var d := GetOr(q, "completion_deadline", Int(0));
    var c := if Truthy(d) then d else Int(0);
    if shownTs.None? || shownTs.value == 0 then Some(0)
    else
      match c
      case Int(i) => Some(i - shownTs.value)
      case Bool(b) => Some((if b then 1 else 0) - shownTs.value)
      case Str(_) => None
      case Null => Some(0 - shownTs.value)
  }

  /** The quest with its formatted remaining time stored under `time_remaining`. */
  function WithTime(q: Quest, remaining: int, fmt: string): Quest {
    Set(q, "time_remaining", Str(Duration.FormatTimeRemaining(Some(remaining), fmt)))
  }

  /** The shown quests, each with its remaining time; `None` once one of them cannot be computed. */
  function Annotate(qs: seq<Quest>, shownTs: Option<int>, fmt: string): (r: Option<seq<Quest>>)
    ensures r.Some? ==> |r.value| == |qs|
    decreases |qs|
  {
    if qs == [] then Some([])
    else
      match (Annotate(qs[..|qs| - 1], shownTs, fmt), Remaining(qs[|qs| - 1], shownTs))
      case (Some(init), Some(rem)) => Some(init + [WithTime(qs[|qs| - 1], rem, fmt)])
      case _ => None
  }

  /** The loop over the shown quests that stores each one's remaining time. */
  method AnnotateQuests(qs: seq<Quest>, shownTs: Option<int>, fmt: string) returns (r: Option<seq<Quest>>)
    ensures r == Annotate(qs, shownTs, fmt)
  {
    var out: seq<Quest> := [];
    var i := 0;
    while i < |qs|
      invariant 0 <= i <= |qs|
      invariant Annotate(qs[..i], shownTs, fmt) == Some(out)
    {
      AnnotateStep(qs, shownTs, fmt, i);
      var rem := Remaining(qs[i], shownTs);
      if rem.None? {
        AnnotateFailsOnward(qs, shownTs, fmt, i + 1);
        return None;
      }
      out := out + [WithTime(qs[i], rem.value, fmt)];
      i := i + 1;
    }
    assert qs[..|qs|] == qs;
    r := Some(out);
  }

  /** One more quest: the prefix's annotation extended by that quest, or a failure. */
  lemma AnnotateStep(qs: seq<Quest>, shownTs: Option<int>, fmt: string, i: nat)
    requires i < |qs|
    ensures var rem := Remaining(qs[i], shownTs);
      && (Annotate(qs[..i], shownTs, fmt).None? || rem.None? ==> Annotate(qs[..i + 1], shownTs, fmt).None?)
      && (Annotate(qs[..i], shownTs, fmt).Some? && rem.Some? ==>
            Annotate(qs[..i + 1], shownTs, fmt) == Some(Annotate(qs[..i], shownTs, fmt).value + [WithTime(qs[i], rem.value, fmt)]))
  {
    assert qs[..i + 1][..i] == qs[..i];
    assert qs[..i + 1][i] == qs[i];
  }

  /** Once one prefix fails, every longer prefix fails. */
  lemma {:induction false} AnnotateFailsOnward(qs: seq<Quest>, shownTs: Option<int>, fmt: string, k: nat)
    requires 0 < k <= |qs| && Annotate(qs[..k], shownTs, fmt).None?
    ensures Annotate(qs, shownTs, fmt).None?
    decreases |qs| - k
  {
    if k < |qs| {
      assert qs[..k + 1][..k] == qs[..k];
      AnnotateFailsOnward(qs, shownTs, fmt, k + 1);
    } else {
      assert qs[..k] == qs;
    }
  }

  /** Annotation keeps each quest in its place and sets its `time_remaining`. */
  lemma {:induction false} AnnotateAt(qs: seq<Quest>, shownTs: Option<int>, fmt: string, i: nat)
    requires Annotate(qs, shownTs, fmt).Some? && i < |qs|
    ensures Remaining(qs[i], shownTs).Some?
    ensures Annotate(qs, shownTs, fmt).value[i] == WithTime(qs[i], Remaining(qs[i], shownTs).value, fmt)
    decreases |qs|
  {
    var n := |qs| - 1;
    var init := qs[..n];
    assert qs[..n + 1] == qs;
    AnnotateStep(qs, shownTs, fmt, n);
    var rem := Remaining(qs[n], shownTs);
    assert Annotate(init, shownTs, fmt).Some? && rem.Some?;
    if i < n {
      AnnotateAt(init, shownTs, fmt, i);
      assert init[i] == qs[i];
      assert Remaining(qs[i], shownTs) == Remaining(init[i], shownTs);
    } else {
      assert i == n;
    }
  }

  /** Annotation fails exactly when some shown quest has a deadline the subtraction rejects. */
  lemma AnnotateFails(qs: seq<Quest>, shownTs: Option<int>, fmt: string)
    ensures Annotate(qs, shownTs, fmt).None? <==> exists i :: 0 <= i < |qs| && Remaining(qs[i], shownTs).None?
  {
    if Annotate(qs, shownTs, fmt).None? {
      var i := AnnotateFailure(qs, shownTs, fmt);
    }
    if exists i :: 0 <= i < |qs| && Remaining(qs[i], shownTs).None? {
      var i :| 0 <= i < |qs| && Remaining(qs[i], shownTs).None?;
      AnnotateStep(qs, shownTs, fmt, i);
      AnnotateFailsOnward(qs, shownTs, fmt, i + 1);
    }
  }

  /** A failed annotation names a quest whose remaining time cannot be computed. */
  lemma {:induction false} AnnotateFailure(qs: seq<Quest>, shownTs: Option<int>, fmt: string) returns (i: nat)
    requires Annotate(qs, shownTs, fmt).None?
    ensures i < |qs| && Remaining(qs[i], shownTs).None?
    decreases |qs|
  {
    var init := qs[..|qs| - 1];
    if Annotate(init, shownTs, fmt).None? {
      i := AnnotateFailure(init, shownTs, fmt);
      assert init[i] == qs[i];
    } else {
      i := |qs| - 1;
    }
  }

  // ---------------------------------------------------------------------------
  // One render pass
  // ---------------------------------------------------------------------------

  /** The shown quests with their `time_remaining`, the globals, and the label count. */
  datatype RenderView = RenderView(quests: seq<Quest>, globals: Dict<Value>, labels: nat)

  /** The quests shown, in order: `_sort_quests(_filter_quests(self._quests or []))`. */
  function ShownQuests(cfg: WidgetConfig, active: set<string>, quests: Payload, clock: Clock): seq<Quest> {
    SortQuests(FilterSpec(cfg.filter, active, quests), cfg.sort, SortReference(clock))
  }

  /** The filter pass, then the sort pass, of `_render_quests_safe`. */
  method ShowQuests(cfg: WidgetConfig, active: set<string>, quests: Payload, clock: Clock) returns (shown: seq<Quest>)
    ensures shown == ShownQuests(cfg, active, quests, clock)
  {
    var filtered := FilterQuests(cfg.filter, active, quests);
    shown := SortQuests(filtered, cfg.sort, SortReference(clock));
  }

  /**
   * Everything `_render_quests_safe` computes; `None` when it stops with a render
   * error.  The label count is the corrected one (`LabelsNeeded`): with no quest
   * shown the placeholder has its own label after the header, so the index error
   * of the code as written (`PlaceholderMissingLabel`) is not among the failures.
   */
  ghost function View(cfg: WidgetConfig, active: set<string>, quests: Payload, clock: Clock, activeRepr: string): Option<RenderView> {
    var shown := ShownQuests(cfg, active, quests, clock);
    var ts := DisplayTimestamp(clock);
    match Annotate(shown, ts, cfg.timeFormat)
    case Some(lines) =>
      Some(RenderView(lines, Globals(|shown|, ts, cfg, SortedListOf(active), activeRepr),
        LabelsNeeded(cfg.headerLines, |shown|, cfg.questLines)))
    case None => None
  }

  /** The view assembled from its parts, as the render pass computes them one by one. */
  lemma ViewOfParts(cfg: WidgetConfig, active: set<string>, quests: Payload, clock: Clock, activeRepr: string,
                    shown: seq<Quest>, ts: Option<int>, sorted: seq<string>, lines: Option<seq<Quest>>)
    requires shown == ShownQuests(cfg, active, quests, clock) && ts == DisplayTimestamp(clock)
    requires sorted == SortedListOf(active) && lines == Annotate(shown, ts, cfg.timeFormat)
    ensures View(cfg, active, quests, clock, activeRepr) ==
      if lines.None? then None
      else Some(RenderView(lines.value, Globals(|shown|, ts, cfg, sorted, activeRepr), LabelsNeeded(cfg.headerLines, |shown|, cfg.questLines)))
  {
  }

  /**
   * The computing part of `_render_quests_safe`, step by step: filter and sort,
   * the displayed time, the header globals, the label count, and the loop that
   * gives each shown quest its remaining time.
   */
  method RenderPass(cfg: WidgetConfig, active: set<string>, quests: Payload, clock: Clock, activeRepr: string)
    returns (view: Option<RenderView>)
    ensures view == View(cfg, active, quests, clock, activeRepr)
  {
    var currentTs := if clock.timestamp.Some? && clock.active then Some(clock.timestamp.value + clock.simulated) else clock.timestamp;
    assert currentTs == DisplayTimestamp(clock);
    var shown := ShowQuests(cfg, active, quests, clock);
    var sorted := SortedSectors(active);
    var globals := Globals(|shown|, currentTs, cfg, sorted, activeRepr);
    var labels := LabelsNeeded(cfg.headerLines, |shown|, cfg.questLines);
    var lines := AnnotateQuests(shown, currentTs, cfg.timeFormat);
    ViewOfParts(cfg, active, quests, clock, activeRepr, shown, currentTs, sorted, lines);
    if lines.None? {
      return None;
    }
    view := Some(RenderView(lines.value, globals, labels));
  }

  // ---------------------------------------------------------------------------
  // What a render pass promises
  // ---------------------------------------------------------------------------

  /** The header globals are a dictionary (no name appears twice) holding the count, time, filter state, sectors, sort keys and sort order. */
  lemma GlobalsUnique(count: nat, shownTs: Option<int>, cfg: WidgetConfig, sorted: seq<string>, activeRepr: string)
    ensures var g := Globals(count, shownTs, cfg, sorted, activeRepr);
      && UniqueKeys(g)
      && g[0] == ("quest_count", Int(count))
      && g[1] == ("timestamp", TimestampValue(shownTs))
      && g[2] == ("filter_enabled", Str(if Enabled(cfg.filter) then "True" else "False"))
      && g[3] == ("filter_active_sectors", Str(SectorsText(sorted)))
      && g[4] == ("sort_keys", Str(SortKeysText(cfg.sort.keys)))
      && g[5] == ("sort_order", Str(cfg.sort.order.GetOr("")))
  {
    var g := Globals(count, shownTs, cfg, sorted, activeRepr);
    assert Keys(g) == GlobalNames;
  }

  const GlobalNames: seq<string> :=
    ["quest_count", "timestamp", "filter_enabled", "filter_active_sectors", "sort_keys", "sort_order", "active_sectors"]

  /**
   * The header shows the number of quests listed, the time on the clock's
   * display, whether the filter is on, the sorted active sectors or "ALL", the
   * sort keys joined with ", " and the sort order; the labels cover the header and every quest's lines.
   */
  lemma ViewGlobals(cfg: WidgetConfig, active: set<string>, quests: Payload, clock: Clock, activeRepr: string)
    requires View(cfg, active, quests, clock, activeRepr).Some?
    ensures var v := View(cfg, active, quests, clock, activeRepr).value;
      && UniqueKeys(v.globals)
      && v.globals[0] == ("quest_count", Int(|v.quests|))
      && v.globals[1] == ("timestamp", TimestampValue(DisplayTimestamp(clock)))
      && v.globals[2] == ("filter_enabled", Str(if Enabled(cfg.filter) then "True" else "False"))
      && (active == {} ==> v.globals[3] == ("filter_active_sectors", Str("ALL")))
      && (active != {} ==> v.globals[3] == ("filter_active_sectors", Str(Join(SortedListOf(active), ", "))))
      && v.globals[4] == ("sort_keys", Str(SortKeysText(cfg.sort.keys)))
      && (cfg.sort.keys.KeyList? && cfg.sort.keys.names != [] ==> v.globals[4].1 == Str(Join(cfg.sort.keys.names, ", ")))
      && (cfg.sort.keys.NoKeys? ==> v.globals[4].1 == Str(""))
      && v.globals[5] == ("sort_order", Str(cfg.sort.order.GetOr("")))
      && v.labels >= cfg.headerLines + |v.quests| * cfg.questLines
      && (|v.quests| == 0 ==> PlaceholderSlot(cfg.headerLines) < v.labels)
  {
    var shown := ShownQuests(cfg, active, quests, clock);
    var ts := DisplayTimestamp(clock);
    var sorted := SortedListOf(active);
    var lines := Annotate(shown, ts, cfg.timeFormat).value;
    assert View(cfg, active, quests, clock, activeRepr).value ==
      RenderView(lines, Globals(|shown|, ts, cfg, sorted, activeRepr), LabelsNeeded(cfg.headerLines, |shown|, cfg.questLines));
    GlobalsUnique(|shown|, ts, cfg, sorted, activeRepr);
    assert active == {} <==> sorted == [];
  }

  /**
   * Each shown quest keeps its fields and gains its remaining time, measured
   * from the displayed time; with no displayed time every quest shows zero.
   */
  lemma ViewQuests(cfg: WidgetConfig, active: set<string>, quests: Payload, clock: Clock, activeRepr: string, i: nat)
    requires View(cfg, active, quests, clock, activeRepr).Some?
    requires i < |ShownQuests(cfg, active, quests, clock)|
    ensures var v := View(cfg, active, quests, clock, activeRepr).value;
      var q := ShownQuests(cfg, active, quests, clock)[i];
      var rem := Remaining(q, DisplayTimestamp(clock));
      && rem.Some?
      && v.quests[i] == WithTime(q, rem.value, cfg.timeFormat)
      && (DisplayTimestamp(clock).None? ==> rem == Some(0))
  {
    AnnotateAt(ShownQuests(cfg, active, quests, clock), DisplayTimestamp(clock), cfg.timeFormat, i);
  }

  /**
   * With the placeholder in its corrected label, the pass ends in a render error
   * exactly when a shown quest has a deadline given as text and a time is
   * displayed.  The code as written can also fail at the placeholder when no
   * quest is shown and fewer than two labels exist (`PlaceholderMissingLabel`).
   */
  lemma ViewFails(cfg: WidgetConfig, active: set<string>, quests: Payload, clock: Clock, activeRepr: string)
    ensures var shown := ShownQuests(cfg, active, quests, clock);
      View(cfg, active, quests, clock, activeRepr).None? <==>
        exists i :: 0 <= i < |shown| && Remaining(shown[i], DisplayTimestamp(clock)).None?
  {
    AnnotateFails(ShownQuests(cfg, active, quests, clock), DisplayTimestamp(clock), cfg.timeFormat);
  }

  /** A text deadline stops the pass only while a time is displayed. */
  lemma TextDeadlineFails(q: Quest, shownTs: Option<int>, s: string)
    requires Get(q, "completion_deadline") == Some(Str(s)) && s != ""
    ensures Remaining(q, shownTs).None? <==> shownTs.Some? && shownTs.value != 0
  {
  }
}
