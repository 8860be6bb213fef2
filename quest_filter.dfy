/**
 * The sector filter: the runtime set of active sectors derived from the
 * configuration's sector map, and the pass over the quest list that keeps the
 * quests whose sector is active whenever the filter is on and some sector flag
 * is set.
 */
module QuestFilter {
  import opened Wrappers
  import opened Text
  import opened Values
  import opened Config

  /** `{k.upper() for k, v in sectors_map.items() if v}`, or the empty set when the map is not a dict. */
  function ActiveSectorsOf(f: FilterConfig): set<string> {
    match f.sectors
    case Some(SectorMap(entries)) => set i | 0 <= i < |entries| && Truthy(entries[i].1) :: Upper(entries[i].0)
    case _ => {}
  }

  /** `bool(filt.get("enabled", False))`. */
  predicate Enabled(f: FilterConfig) {
    f.enabled.Some? && Truthy(f.enabled.value)
  }

  /** `isinstance(cfg_sectors, dict) and any(cfg_sectors.values())`. */
  predicate AnySectorFlag(f: FilterConfig) {
    && f.sectors.Some? && f.sectors.value.SectorMap?
    && exists i :: 0 <= i < |f.sectors.value.entries| && Truthy(f.sectors.value.entries[i].1)
  }

  /** The filter takes effect: enabled, with a sector map holding at least one true flag. */
  predicate Restricting(f: FilterConfig) {
    Enabled(f) && AnySectorFlag(f)
  }

  /** `str(q.get("sector", "")).upper()`. */
  function SectorOf(q: Quest): string {
    Upper(PyStr(GetOr(q, "sector", Str(""))))
  }

  predicate Keeps(f: FilterConfig, active: set<string>, q: Quest) {
    !Restricting(f) || SectorOf(q) in active
  }

  /** `_quests` as the snapshot delivers it: a list of quests, or some other value. */
  datatype Payload = QuestList(items: seq<Quest>) | NotAList

  /** The kept quests of `s`, in order. */
  function FilterSeq(f: FilterConfig, active: set<string>, s: seq<Quest>): seq<Quest>
    decreases |s|
  {
    if s == [] then []
    else
      var last := s[|s| - 1];
      FilterSeq(f, active, s[..|s| - 1]) + (if Keeps(f, active, last) then [last] else [])
  }

  function FilterSpec(f: FilterConfig, active: set<string>, quests: Payload): seq<Quest> {
    match quests
    case QuestList(items) => FilterSeq(f, active, items)
    case NotAList => []
  }

  /** The body of the loop in `_filter_quests`: whether quest `q` is kept. */
  method Include(f: FilterConfig, enabled: bool, active: set<string>, q: Quest) returns (keep: bool)
    requires enabled == Enabled(f)
    ensures keep <==> !Restricting(f) || SectorOf(q) in active
  {
    keep := true;
    var sec := SectorOf(q);
    if enabled {
      if AnySectorFlag(f) {
        if sec !in active {
          keep := false;
        }
      }
    }
  }

  /** `_filter_quests(quests)`. */
  method FilterQuests(f: FilterConfig, active: set<string>, quests: Payload) returns (result: seq<Quest>)
    ensures result == FilterSpec(f, active, quests)
  {
    if quests.NotAList? {
      return [];
    }
    result := FilterItems(f, active, quests.items);
  }

  /** The loop of `_filter_quests` over a list of quests. */
  method FilterItems(f: FilterConfig, active: set<string>, items: seq<Quest>) returns (result: seq<Quest>)
    ensures result == FilterSeq(f, active, items)
  {
    var enabled := Enabled(f);
    result := [];
    var i := 0;
    while i < |items|
      invariant 0 <= i <= |items|
      invariant result == FilterSeq(f, active, items[..i])
    {
      var q := items[i];
      var keep := Include(f, enabled, active, q);
      FilterSeqStep(f, active, items, i);
      if keep {
        result := result + [q];
      }
      i := i + 1;
    }
    assert items[..|items|] == items;
  }

  lemma FilterSeqStep(f: FilterConfig, active: set<string>, items: seq<Quest>, i: nat)
    requires i < |items|
    ensures Keeps(f, active, items[i]) ==> FilterSeq(f, active, items[..i + 1]) == FilterSeq(f, active, items[..i]) + [items[i]]
    ensures !Keeps(f, active, items[i]) ==> FilterSeq(f, active, items[..i + 1]) == FilterSeq(f, active, items[..i])
  {
    assert items[..i + 1][..i] == items[..i];
  }

  // ---------------------------------------------------------------------------
  // What the filter promises
  // ---------------------------------------------------------------------------

  /** `r` is `s` with some elements left out, the rest in their order. */
  predicate IsSubsequence(r: seq<Quest>, s: seq<Quest>)
    decreases |s|
  {
    if r == [] then true
    else if s == [] then false
    else if r[|r| - 1] == s[|s| - 1] then IsSubsequence(r[..|r| - 1], s[..|s| - 1])
    else IsSubsequence(r, s[..|s| - 1])
  }

  lemma {:induction false} FilterIsSubsequence(f: FilterConfig, active: set<string>, s: seq<Quest>)
    ensures IsSubsequence(FilterSeq(f, active, s), s)
    decreases |s|
  {
    if s != [] {
      var r := FilterSeq(f, active, s);
      var init := FilterSeq(f, active, s[..|s| - 1]);
      FilterIsSubsequence(f, active, s[..|s| - 1]);
      if Keeps(f, active, s[|s| - 1]) {
        assert r[..|r| - 1] == init;
      } else {
        assert r == init;
        SubsequenceOfLonger(init, s[..|s| - 1], s[|s| - 1]);
      }
    }
  }

  /** A subsequence of `s` is a subsequence of any extension of `s`. */
  lemma {:induction false} SubsequenceOfLonger(r: seq<Quest>, s: seq<Quest>, x: Quest)
    requires IsSubsequence(r, s)
    ensures IsSubsequence(r, s + [x])
    decreases |s|, 1
  {
    var t := s + [x];
    assert t[..|t| - 1] == s;
    if r != [] && r[|r| - 1] == x {
      SubsequenceDropLast(r, s);
    }
  }

  /** Dropping the last element of a subsequence keeps it a subsequence. */
  lemma {:induction false} SubsequenceDropLast(r: seq<Quest>, s: seq<Quest>)
    requires IsSubsequence(r, s) && r != []
    ensures IsSubsequence(r[..|r| - 1], s)
    decreases |s|, 0
  {
    var init := r[..|r| - 1];
    var s0 := s[..|s| - 1];
    assert s == s0 + [s[|s| - 1]];
    if r[|r| - 1] != s[|s| - 1] {
      SubsequenceDropLast(r, s0);
    }
    SubsequenceOfLonger(init, s0, s[|s| - 1]);
  }

  /** Exactly the quests that pass the test are kept (each occurrence once). */
  lemma {:induction false} FilterMembership(f: FilterConfig, active: set<string>, s: seq<Quest>)
    ensures forall q :: q in FilterSeq(f, active, s) <==> q in s && Keeps(f, active, q)
    decreases |s|
  {
    if s != [] {
      FilterMembership(f, active, s[..|s| - 1]);
      assert s == s[..|s| - 1] + [s[|s| - 1]];
    }
  }

  /** Disabled, or no sector flag set: every quest is kept, in order. */
  lemma FilterOffKeepsAll(f: FilterConfig, active: set<string>, s: seq<Quest>)
    requires !Restricting(f)
    ensures FilterSeq(f, active, s) == s
  {
    FilterKeepsPassing(f, active, s);
  }

  /** A sequence whose every quest passes the test is kept whole. */
  lemma {:induction false} FilterKeepsPassing(f: FilterConfig, active: set<string>, s: seq<Quest>)
    requires forall i :: 0 <= i < |s| ==> Keeps(f, active, s[i])
    ensures FilterSeq(f, active, s) == s
    decreases |s|
  {
    if s != [] {
      FilterKeepsPassing(f, active, s[..|s| - 1]);
      assert s == s[..|s| - 1] + [s[|s| - 1]];
    }
  }

  /** Filtering what was already filtered changes nothing. */
  lemma FilterIdempotent(f: FilterConfig, active: set<string>, s: seq<Quest>)
    ensures FilterSeq(f, active, FilterSeq(f, active, s)) == FilterSeq(f, active, s)
  {
    var r := FilterSeq(f, active, s);
    FilterMembership(f, active, s);
    assert forall i :: 0 <= i < |r| ==> r[i] in r;
    FilterKeepsPassing(f, active, r);
  }

  /** Anything but a list yields no quests. */
  lemma NotAListGivesNothing(f: FilterConfig, active: set<string>)
    ensures FilterSpec(f, active, NotAList) == []
  {
  }
}
