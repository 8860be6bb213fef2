/**
 * The colour ladder for the time remaining on a quest: the rules map threshold
 * strings (seconds) to colours; the colour of the smallest threshold at or above
 * the remaining time wins, and anything above every threshold takes the largest.
 */
module TimeColor {
  import opened Wrappers
  import opened Text
  import opened Values

  const White := "#ffffff"

  /** `time_remaining_colors` as found in the configuration: a dict, or anything else. */
  datatype ColorRules = ColorMap(rules: Dict<string>) | NotADict

  // ---------------------------------------------------------------------------
  // sorted() over integers
  // ---------------------------------------------------------------------------

  predicate IsSorted(s: seq<int>) {
    forall i, j :: 0 <= i < j < |s| ==> s[i] <= s[j]
  }

  /** A lower bound of `s` and of `x` bounds any arrangement of them. */
  lemma LowerBoundKept(lo: int, x: int, s: seq<int>, r: seq<int>)
    requires multiset(r) == multiset(s) + multiset{x}
    requires lo <= x && forall i :: 0 <= i < |s| ==> lo <= s[i]
    ensures forall i :: 0 <= i < |r| ==> lo <= r[i]
  {
    forall i | 0 <= i < |r| ensures lo <= r[i] {
      assert r[i] in multiset(r);
      if r[i] != x {
        assert r[i] in multiset(s);
        var j :| 0 <= j < |s| && s[j] == r[i];
      }
    }
  }

  function Insert(x: int, s: seq<int>): (r: seq<int>)
    requires IsSorted(s)
    ensures IsSorted(r) && multiset(r) == multiset(s) + multiset{x}
    decreases |s|
  {
    if s == [] || x <= s[0] then [x] + s
    else
      var tail := s[1..];
      SortedSplit(s);
      var rest := Insert(x, tail);
      LowerBoundKept(s[0], x, tail, rest);
      SortedConsBound(s[0], rest);
      [s[0]] + rest
  }

  /** A sorted sequence is its first element, a lower bound, before a sorted tail. */
  lemma SortedSplit(s: seq<int>)
    requires IsSorted(s) && s != []
    ensures IsSorted(s[1..]) && s == [s[0]] + s[1..]
    ensures forall i :: 0 <= i < |s[1..]| ==> s[0] <= s[1..][i]
  {
  }

  /** A lower bound of a sorted sequence can lead it. */
  lemma SortedConsBound(lo: int, s: seq<int>)
    requires IsSorted(s) && forall i :: 0 <= i < |s| ==> lo <= s[i]
    ensures IsSorted([lo] + s)
  {
  }

  /** `sorted(s)` for integers. */
  function SortInts(s: seq<int>): (r: seq<int>)
    ensures IsSorted(r) && multiset(r) == multiset(s)
    decreases |s|
  {
    if s == [] then []
    else
      assert s == [s[0]] + s[1..];
      Insert(s[0], SortInts(s[1..]))
  }

  // ---------------------------------------------------------------------------
  // get_time_color
  // ---------------------------------------------------------------------------

  /** `[int(k) for k in keys]`, or `None` when one of them raises. */
  function ParseAll(keys: seq<string>): (r: Option<seq<int>>)
    ensures r.Some? ==> |r.value| == |keys| && forall i :: 0 <= i < |keys| ==> ParseInt(keys[i]) == Some(r.value[i])
    ensures r.None? ==> exists i :: 0 <= i < |keys| && ParseInt(keys[i]).None?
    decreases |keys|
  {
    if keys == [] then Some([])
    else match (ParseInt(keys[0]), ParseAll(keys[1..]))
      case (Some(k), Some(ks)) => Some([k] + ks)
      case (None, _) => None
      case (_, None) =>
        assert exists i :: 1 <= i < |keys| && ParseInt(keys[i]).None? by {
          var i :| 0 <= i < |keys[1..]| && ParseInt(keys[1..][i]).None?;
          assert keys[1..][i] == keys[i + 1];
        }
        None
  }

  /** The first `k` of `ks` with `seconds <= k`: the loop over the sorted thresholds. */
  function FirstAtLeast(ks: seq<int>, seconds: int): Option<int>
    decreases |ks|
  {
    if ks == [] then None
    else if seconds <= ks[0] then Some(ks[0])
    else FirstAtLeast(ks[1..], seconds)
  }

  /** `color_rules[str(k)]`; a missing key raises `KeyError`, which ends in white. */
  function ColorAt(rules: Dict<string>, k: int): string {
    GetOr(rules, IntToString(k), White)
  }

  /** `get_time_color(seconds_left, color_rules)`; `None` seconds is Python's `None`. */
  function GetTimeColor(seconds: Option<int>, colorRules: ColorRules): string {
    if colorRules.NotADict? || seconds.None? then
      if colorRules.ColorMap? && HasKey(colorRules.rules, "0") then GetOr(colorRules.rules, "0", White)
      else White
    else
      var rules := colorRules.rules;
      match ParseAll(Keys(rules))
      case None => White
      case Some(parsed) =>
        var ks := SortInts(parsed);
        match FirstAtLeast(ks, seconds.value)
        case Some(k) => ColorAt(rules, k)
        case None => if ks != [] then ColorAt(rules, ks[|ks| - 1]) else White
  }

  // ---------------------------------------------------------------------------
  // What the ladder means
  // ---------------------------------------------------------------------------

  /** The integer thresholds of the rules, when every key is one. */
  function Thresholds(rules: Dict<string>): Option<seq<int>> {
    ParseAll(Keys(rules))
  }

  /** `k` is the smallest threshold at or above `seconds`. */
  predicate IsLeastAbove(ks: seq<int>, seconds: int, k: int) {
    k in ks && seconds <= k && forall t :: t in ks && seconds <= t ==> k <= t
  }

  lemma {:induction false} FirstAtLeastIsLeast(ks: seq<int>, seconds: int)
    requires IsSorted(ks)
    ensures FirstAtLeast(ks, seconds).Some? ==> IsLeastAbove(ks, seconds, FirstAtLeast(ks, seconds).value)
    ensures FirstAtLeast(ks, seconds).None? ==> forall t :: t in ks ==> t < seconds
    decreases |ks|
  {
    if ks != [] {
      FirstAtLeastIsLeast(ks[1..], seconds);
      assert forall t :: t in ks ==> t == ks[0] || t in ks[1..];
      forall t | t in ks[1..] ensures ks[0] <= t {
        var j :| 0 <= j < |ks[1..]| && ks[1..][j] == t;
        assert ks[j + 1] == t;
      }
    }
  }

  lemma SameElements(a: seq<int>, b: seq<int>)
    requires multiset(a) == multiset(b)
    ensures forall t :: t in a <==> t in b
  {
    forall t ensures t in a <==> t in b {
      assert t in a <==> t in multiset(a);
      assert t in b <==> t in multiset(b);
    }
  }

  /**
   * Remaining time at or below some threshold: the colour of the smallest such
   * threshold (so a value exactly on a threshold takes that threshold's colour).
   */
  lemma {:induction false} ColorOfLeastThreshold(rules: Dict<string>, ks: seq<int>, seconds: int, k: int)
    requires Thresholds(rules) == Some(ks)
    requires IsLeastAbove(ks, seconds, k)
    ensures GetTimeColor(Some(seconds), ColorMap(rules)) == ColorAt(rules, k)
  {
    var sorted := SortInts(ks);
    SameElements(sorted, ks);
    FirstAtLeastIsLeast(sorted, seconds);
    assert FirstAtLeast(sorted, seconds).Some?;
  }

  /** With integer thresholds, the colour is read off the sorted ladder. */
  lemma ColorFromLadder(rules: Dict<string>, ks: seq<int>, seconds: int)
    requires Thresholds(rules) == Some(ks)
    ensures var sorted := SortInts(ks);
      GetTimeColor(Some(seconds), ColorMap(rules)) ==
        match FirstAtLeast(sorted, seconds)
        case Some(k) => ColorAt(rules, k)
        case None => if sorted != [] then ColorAt(rules, sorted[|sorted| - 1]) else White
  {
  }

  lemma {:induction false} FirstAtLeastNoneBelow(ks: seq<int>, seconds: int)
    requires forall i :: 0 <= i < |ks| ==> ks[i] < seconds
    ensures FirstAtLeast(ks, seconds).None?
    decreases |ks|
  {
    if ks != [] {
      assert forall i :: 0 <= i < |ks[1..]| ==> ks[1..][i] == ks[i + 1];
      FirstAtLeastNoneBelow(ks[1..], seconds);
    }
  }

  /** A sorted arrangement of thresholds all below `seconds` ends in their maximum `m`. */
  lemma SortedTopIsMax(ks: seq<int>, sorted: seq<int>, seconds: int, m: int)
    requires IsSorted(sorted) && multiset(sorted) == multiset(ks)
    requires m in ks && forall t :: t in ks ==> t <= m
    requires m < seconds
    ensures FirstAtLeast(sorted, seconds).None? && sorted != [] && sorted[|sorted| - 1] == m
  {
    assert m in multiset(sorted);
    var j :| 0 <= j < |sorted| && sorted[j] == m;
    var last := sorted[|sorted| - 1];
    assert last in multiset(ks);
    assert last in ks;
    assert last <= m;
    assert j == |sorted| - 1 || sorted[j] <= last;
    forall i | 0 <= i < |sorted| ensures sorted[i] < seconds {
      assert sorted[i] in multiset(ks);
      assert sorted[i] in ks;
    }
    FirstAtLeastNoneBelow(sorted, seconds);
  }

  /** Remaining time above every threshold: the colour of the largest threshold. */
  lemma {:induction false} ColorAboveAll(rules: Dict<string>, ks: seq<int>, seconds: int, m: int)
    requires Thresholds(rules) == Some(ks)
    requires m in ks && forall t :: t in ks ==> t <= m
    requires m < seconds
    ensures GetTimeColor(Some(seconds), ColorMap(rules)) == ColorAt(rules, m)
  {
    ColorFromLadder(rules, ks, seconds);
    SortedTopIsMax(ks, SortInts(ks), seconds, m);
  }

  /** Unknown remaining time: the "0" entry if there is one, otherwise white. */
  lemma ColorWithoutSeconds(colorRules: ColorRules)
    ensures GetTimeColor(None, colorRules) ==
      if colorRules.ColorMap? && HasKey(colorRules.rules, "0") then Get(colorRules.rules, "0").value else White
  {
  }

  /** Rules that are not a dict, empty rules, or a key that is not an integer: white. */
  lemma ColorDefaults(seconds: int, rules: Dict<string>, i: int)
    ensures GetTimeColor(Some(seconds), NotADict) == White
    ensures GetTimeColor(Some(seconds), ColorMap([])) == White
    ensures 0 <= i < |rules| && ParseInt(rules[i].0).None? ==> GetTimeColor(Some(seconds), ColorMap(rules)) == White
  {
    if 0 <= i < |rules| && ParseInt(rules[i].0).None? {
      assert Keys(rules)[i] == rules[i].0;
    }
  }
}
