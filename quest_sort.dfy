/**
 * The widget's multi-key quest sort: every quest gets a tuple of sort values, one
 * per configured key, and the quests are put in the order of those tuples by a
 * stable sort, ascending or descending.  Comparing a number with a string raises
 * in Python; the sort then gives up and the quests keep their input order.
 */
module QuestSort {
  import opened Wrappers
  import opened Text
  import opened Values

  /** One component of a sort tuple: a number, or lower-cased text. */
  datatype SortValue = Num(n: int) | Txt(t: string)

  /** The outcome of a comparison; `Clash` is the `TypeError` of comparing a number with text. */
  datatype Cmp = Less | Same | Greater | Clash

  function Flip(c: Cmp): Cmp {
    match c
    case Less => Greater
    case Greater => Less
    case Same => Same
    case Clash => Clash
  }

  function IntCmp(x: int, y: int): Cmp {
    if x < y then Less else if x == y then Same else Greater
  }

  /** Python's string order: code point by code point, a proper prefix first. */
  function StrCmp(a: string, b: string): (c: Cmp)
    ensures c != Clash
    decreases |a|
  {
    if a == [] then (if b == [] then Same else Less)
    else if b == [] then Greater
    else if a[0] < b[0] then Less
    else if a[0] > b[0] then Greater
    else StrCmp(a[1..], b[1..])
  }

  /** Python's `==` and then `<` on two components of a sort tuple. */
  function ValueCmp(a: SortValue, b: SortValue): Cmp {
    match (a, b)
    case (Num(x), Num(y)) => IntCmp(x, y)
    case (Txt(x), Txt(y)) => StrCmp(x, y)
    case _ => Clash
  }

  /** Python's tuple order: the first components that differ decide, a proper prefix comes first. */
  function KeyCmp(a: seq<SortValue>, b: seq<SortValue>): Cmp
    decreases |a|
  {
    if a == [] then (if b == [] then Same else Less)
    else if b == [] then Greater
    else
      var c := ValueCmp(a[0], b[0]);
      if c == Same then KeyCmp(a[1..], b[1..]) else c
  }

  // ---------------------------------------------------------------------------
  // A total order that agrees with Python's wherever Python's is defined
  // ---------------------------------------------------------------------------

  /** `ValueCmp` with every number placed before every text. */
  function ValueOrd(a: SortValue, b: SortValue): (c: Cmp)
    ensures c != Clash
  {
    match (a, b)
    case (Num(x), Num(y)) => IntCmp(x, y)
    case (Txt(x), Txt(y)) => StrCmp(x, y)
    case (Num(_), Txt(_)) => Less
    case (Txt(_), Num(_)) => Greater
  }

  function KeyOrd(a: seq<SortValue>, b: seq<SortValue>): (c: Cmp)
    ensures c != Clash
    decreases |a|
  {
    if a == [] then (if b == [] then Same else Less)
    else if b == [] then Greater
    else
      var c := ValueOrd(a[0], b[0]);
      if c == Same then KeyOrd(a[1..], b[1..]) else c
  }

  lemma {:induction false} StrCmpProperties(a: string, b: string)
    ensures StrCmp(a, b) == Same <==> a == b
    ensures StrCmp(b, a) == Flip(StrCmp(a, b))
    decreases |a|
  {
    if a != [] && b != [] && a[0] == b[0] {
      StrCmpProperties(a[1..], b[1..]);
      assert a == [a[0]] + a[1..] && b == [b[0]] + b[1..];
    }
  }

  lemma {:induction false} StrCmpTrans(a: string, b: string, c: string)
    requires StrCmp(a, b) == Less && StrCmp(b, c) == Less
    ensures StrCmp(a, c) == Less
    decreases |a|
  {
    if a != [] && a[0] == b[0] && b[0] == c[0] {
      StrCmpTrans(a[1..], b[1..], c[1..]);
    }
  }

  lemma ValueOrdProperties(a: SortValue, b: SortValue)
    ensures ValueOrd(a, b) == Same <==> a == b
    ensures ValueOrd(b, a) == Flip(ValueOrd(a, b))
  {
    if a.Txt? && b.Txt? {
      StrCmpProperties(a.t, b.t);
    }
  }

  lemma ValueOrdTrans(a: SortValue, b: SortValue, c: SortValue)
    requires ValueOrd(a, b) == Less && ValueOrd(b, c) == Less
    ensures ValueOrd(a, c) == Less
  {
    if a.Txt? && b.Txt? && c.Txt? {
      StrCmpTrans(a.t, b.t, c.t);
    }
  }

  lemma {:induction false} KeyOrdProperties(a: seq<SortValue>, b: seq<SortValue>)
    ensures KeyOrd(a, b) == Same <==> a == b
    ensures KeyOrd(b, a) == Flip(KeyOrd(a, b))
    decreases |a|
  {
    if a != [] && b != [] {
      ValueOrdProperties(a[0], b[0]);
      KeyOrdProperties(a[1..], b[1..]);
      assert a == [a[0]] + a[1..] && b == [b[0]] + b[1..];
    }
  }

  lemma {:induction false} KeyOrdTrans(a: seq<SortValue>, b: seq<SortValue>, c: seq<SortValue>)
    requires KeyOrd(a, b) == Less && KeyOrd(b, c) == Less
    ensures KeyOrd(a, c) == Less
    decreases |a|
  {
    if a != [] {
      ValueOrdProperties(a[0], b[0]);
      ValueOrdProperties(b[0], c[0]);
      if ValueOrd(a[0], b[0]) == Less && ValueOrd(b[0], c[0]) == Less {
        ValueOrdTrans(a[0], b[0], c[0]);
      } else if ValueOrd(a[0], b[0]) == Same && ValueOrd(b[0], c[0]) == Same {
        KeyOrdTrans(a[1..], b[1..], c[1..]);
      }
    }
  }

  /** Wherever Python's tuple comparison does not raise, it is the total order. */
  lemma {:induction false} KeyCmpAgrees(a: seq<SortValue>, b: seq<SortValue>)
    requires KeyCmp(a, b) != Clash
    ensures KeyCmp(a, b) == KeyOrd(a, b)
    decreases |a|
  {
    if a != [] && b != [] && ValueCmp(a[0], b[0]) == Same {
      KeyCmpAgrees(a[1..], b[1..]);
    }
  }

  // ---------------------------------------------------------------------------
  // Stable sort of positions
  // ---------------------------------------------------------------------------

  /**
   * Position `i` goes before position `j`: its tuple is smaller (larger when
   * descending), or the tuples are equal and `i` came first.
   */
  predicate Before(ks: seq<seq<SortValue>>, asc: bool, i: nat, j: nat) {
    i < |ks| && j < |ks| &&
    var c := KeyOrd(ks[i], ks[j]);
    (if asc then c == Less else c == Greater) || (c == Same && i < j)
  }

  lemma BeforeAsymmetric(ks: seq<seq<SortValue>>, asc: bool, i: nat, j: nat)
    ensures !(Before(ks, asc, i, j) && Before(ks, asc, j, i))
  {
    if i < |ks| && j < |ks| {
      KeyOrdProperties(ks[i], ks[j]);
    }
  }

  lemma BeforeTotal(ks: seq<seq<SortValue>>, asc: bool, i: nat, j: nat)
    requires i < |ks| && j < |ks| && i != j
    ensures Before(ks, asc, i, j) || Before(ks, asc, j, i)
  {
    KeyOrdProperties(ks[i], ks[j]);
  }

  lemma BeforeTrans(ks: seq<seq<SortValue>>, asc: bool, i: nat, j: nat, k: nat)
    requires Before(ks, asc, i, j) && Before(ks, asc, j, k)
    ensures Before(ks, asc, i, k)
  {
    KeyOrdProperties(ks[i], ks[j]);
    KeyOrdProperties(ks[j], ks[k]);
    KeyOrdProperties(ks[i], ks[k]);
    var c1, c2 := KeyOrd(ks[i], ks[j]), KeyOrd(ks[j], ks[k]);
    if asc && c1 == Less && c2 == Less {
      KeyOrdTrans(ks[i], ks[j], ks[k]);
    } else if !asc && c1 == Greater && c2 == Greater {
      KeyOrdTrans(ks[k], ks[j], ks[i]);
    }
  }

  predicate InRange(s: seq<nat>, n: nat) {
    forall i :: 0 <= i < |s| ==> s[i] < n
  }

  predicate Distinct(s: seq<nat>) {
    forall a, b :: 0 <= a < b < |s| ==> s[a] != s[b]
  }

  predicate SortedBy(ks: seq<seq<SortValue>>, asc: bool, s: seq<nat>) {
    forall a, b :: 0 <= a < b < |s| ==> Before(ks, asc, s[a], s[b])
  }

  function InsertIdx(ks: seq<seq<SortValue>>, asc: bool, x: nat, s: seq<nat>): (r: seq<nat>)
    ensures multiset(r) == multiset(s) + multiset{x}
    decreases |s|
  {
    if s == [] || Before(ks, asc, x, s[0]) then [x] + s
    else
      assert s == [s[0]] + s[1..];
      [s[0]] + InsertIdx(ks, asc, x, s[1..])
  }

  /** Insertion sort of positions by `Before`. */
  function SortIdx(ks: seq<seq<SortValue>>, asc: bool, s: seq<nat>): (r: seq<nat>)
    ensures multiset(r) == multiset(s)
    decreases |s|
  {
    if s == [] then []
    else
      assert s == [s[0]] + s[1..];
      InsertIdx(ks, asc, s[0], SortIdx(ks, asc, s[1..]))
  }

  /** A position that goes before every element of a sorted sequence can lead it. */
  lemma SortedCons(ks: seq<seq<SortValue>>, asc: bool, x: nat, s: seq<nat>)
    requires SortedBy(ks, asc, s)
    requires forall b :: 0 <= b < |s| ==> Before(ks, asc, x, s[b])
    ensures SortedBy(ks, asc, [x] + s)
  {
    var r := [x] + s;
    forall a, b | 0 <= a < b < |r| ensures Before(ks, asc, r[a], r[b]) {
      if a == 0 {
        assert r[b] == s[b - 1];
      } else {
        assert r[a] == s[a - 1] && r[b] == s[b - 1];
      }
    }
  }

  /** The head of a sorted sequence goes before every element of a reordering of its tail plus `x`. */
  lemma HeadBeforeAll(ks: seq<seq<SortValue>>, asc: bool, x: nat, s: seq<nat>, rest: seq<nat>)
    requires s != [] && SortedBy(ks, asc, s) && Before(ks, asc, s[0], x)
    requires multiset(rest) == multiset(s[1..]) + multiset{x}
    ensures forall b :: 0 <= b < |rest| ==> Before(ks, asc, s[0], rest[b])
  {
    var tail := s[1..];
    forall b | 0 <= b < |rest| ensures Before(ks, asc, s[0], rest[b]) {
      var y := rest[b];
      assert y in multiset(rest);
      if y != x {
        assert y in multiset(tail);
        var j :| 0 <= j < |tail| && tail[j] == y;
        assert s[j + 1] == y;
      }
    }
  }

  lemma {:induction false} InsertSorted(ks: seq<seq<SortValue>>, asc: bool, x: nat, s: seq<nat>)
    requires x < |ks| && InRange(s, |ks|) && x !in s && SortedBy(ks, asc, s)
    ensures SortedBy(ks, asc, InsertIdx(ks, asc, x, s))
    decreases |s|
  {
    if s == [] {
    } else if Before(ks, asc, x, s[0]) {
      forall b | 0 <= b < |s| ensures Before(ks, asc, x, s[b]) {
        if b > 0 {
          BeforeTrans(ks, asc, x, s[0], s[b]);
        }
      }
      SortedCons(ks, asc, x, s);
    } else {
      assert s[0] in s;
      BeforeTotal(ks, asc, x, s[0]);
      var tail := s[1..];
      SortedTail(ks, asc, s);
      assert x !in tail && InRange(tail, |ks|) by {
        forall j | 0 <= j < |tail| ensures tail[j] == s[j + 1] { }
      }
      InsertSorted(ks, asc, x, tail);
      var rest := InsertIdx(ks, asc, x, tail);
      HeadBeforeAll(ks, asc, x, s, rest);
      SortedCons(ks, asc, s[0], rest);
    }
  }

  lemma {:induction false} SortIdxSorted(ks: seq<seq<SortValue>>, asc: bool, s: seq<nat>)
    requires InRange(s, |ks|) && Distinct(s)
    ensures SortedBy(ks, asc, SortIdx(ks, asc, s))
    decreases |s|
  {
    if s != [] {
      var tail := s[1..];
      assert Distinct(tail) by {
        forall a, b | 0 <= a < b < |tail| ensures tail[a] != tail[b] {
          assert tail[a] == s[a + 1] && tail[b] == s[b + 1];
        }
      }
      SortIdxSorted(ks, asc, tail);
      var sorted := SortIdx(ks, asc, tail);
      assert s[0] in s;
      assert s[0] !in tail by {
        forall j | 0 <= j < |tail| ensures tail[j] != s[0] { assert tail[j] == s[j + 1]; }
      }
      assert s[0] !in multiset(sorted);
      assert InRange(sorted, |ks|) by {
        forall i | 0 <= i < |sorted| ensures sorted[i] < |ks| {
          assert sorted[i] in multiset(tail);
          var j :| 0 <= j < |tail| && tail[j] == sorted[i];
        }
      }
      InsertSorted(ks, asc, s[0], sorted);
    }
  }

  lemma SortedHead(ks: seq<seq<SortValue>>, asc: bool, p: seq<nat>, y: nat)
    requires SortedBy(ks, asc, p) && y in p
    ensures y == p[0] || Before(ks, asc, p[0], y)
  {
  }

  lemma SortedTail(ks: seq<seq<SortValue>>, asc: bool, p: seq<nat>)
    requires SortedBy(ks, asc, p) && p != []
    ensures SortedBy(ks, asc, p[1..])
  {
    forall a, b | 0 <= a < b < |p| - 1 ensures Before(ks, asc, p[1..][a], p[1..][b]) {
      assert p[1..][a] == p[a + 1] && p[1..][b] == p[b + 1];
    }
  }

  lemma TailMultiset(p: seq<nat>)
    requires p != []
    ensures multiset(p[1..]) == multiset(p) - multiset{p[0]}
  {
    assert p == [p[0]] + p[1..];
  }

  /**
   * Two arrangements of the same positions that are both in `Before` order are
   * the same arrangement.
   */
  lemma {:induction false} SortedUnique(ks: seq<seq<SortValue>>, asc: bool, p: seq<nat>, q: seq<nat>)
    requires SortedBy(ks, asc, p) && SortedBy(ks, asc, q) && multiset(p) == multiset(q)
    ensures p == q
    decreases |p|
  {
    if p != [] {
      assert |q| == |p| by { assert |multiset(q)| == |multiset(p)|; }
      var x, y := p[0], q[0];
      assert x in multiset(q) && y in multiset(p);
      SortedHead(ks, asc, p, y);
      SortedHead(ks, asc, q, x);
      BeforeAsymmetric(ks, asc, x, y);
      assert x == y;
      TailMultiset(p);
      TailMultiset(q);
      SortedTail(ks, asc, p);
      SortedTail(ks, asc, q);
      SortedUnique(ks, asc, p[1..], q[1..]);
    }
  }

  /** `0, 1, …, n - 1`. */
  function Range(n: nat): (r: seq<nat>)
    ensures |r| == n && forall i :: 0 <= i < n ==> r[i] == i
  {
    seq(n, i requires 0 <= i < n => i)
  }

  lemma RangeFacts(n: nat)
    ensures InRange(Range(n), n) && Distinct(Range(n))
  {
  }

  lemma PermutationInRange(p: seq<nat>, n: nat)
    requires multiset(p) == multiset(Range(n))
    ensures InRange(p, n)
  {
    forall i | 0 <= i < |p| ensures p[i] < n {
      assert p[i] in multiset(Range(n));
    }
  }

  function Reverse<T>(p: seq<T>): (r: seq<T>)
    ensures |r| == |p| && forall i :: 0 <= i < |p| ==> r[i] == p[|p| - 1 - i]
  {
    seq(|p|, i requires 0 <= i < |p| => p[|p| - 1 - i])
  }

  lemma {:induction false} ReverseMultiset<T>(p: seq<T>)
    ensures multiset(Reverse(p)) == multiset(p)
    decreases |p|
  {
    if p != [] {
      ReverseMultiset(p[1..]);
      assert Reverse(p) == Reverse(p[1..]) + [p[0]];
      assert p == [p[0]] + p[1..];
    }
  }

  // ---------------------------------------------------------------------------
  // The sort configuration and the sort tuple of a quest
  // ---------------------------------------------------------------------------

  /** `sort.keys`: absent, a list of field names, or a single name given as a string. */
  datatype SortKeys = NoKeys | KeyList(names: seq<string>) | SingleKey(name: string)

  /** The `sort` section of the configuration; a missing `order` is `None`. */
  datatype SortConfig = SortConfig(keys: SortKeys, order: Option<string>)

  /** The key list, a single name wrapped in a list. */
  function KeyNames(cfg: SortConfig): seq<string> {
    match cfg.keys
    case NoKeys => []
    case KeyList(names) => names
    case SingleKey(name) => [name]
  }

  /** `sort_cfg.get("order", "asc").lower() == "asc"`. */
  predicate Ascending(cfg: SortConfig) {
    Lower(cfg.order.GetOr("asc")) == "asc"
  }

  /**
   * The time `time_remaining` is measured from: the snapshot timestamp plus the
   * simulated seconds, or 0 when there is no timestamp or it is 0.
   */
  function ReferenceTime(timestamp: Option<int>, simulated: int): int {
    if timestamp.Some? && timestamp.value != 0 then timestamp.value + simulated else 0
  }

  /**
   * The sort value of one quest under one key.  `time_remaining` is the deadline
   * (0 when missing or falsy) minus the reference time, or 0 when the deadline
   * is not an integer; any other field is a number when `float()` accepts it
   * and lower-cased text otherwise, a missing field being the empty text.
   */
  function SortValueOf(q: Quest, key: string, ref: int): SortValue {
    if key == "time_remaining" then
      var completion := GetOr(q, "completion_deadline", Int(0));
      match IntOf(if Truthy(completion) then completion else Int(0))
      case Some(c) => Num(c - ref)
      case None => Num(0)
    else
      var v := GetOr(q, key, Str(""));
      match v
      case Int(i) => Num(i)
      case Bool(b) => Num(if b then 1 else 0)
      case Str(s) => (match ParseInt(s) case Some(n) => Num(n) case None => Txt(Lower(s)))
      case Null => Txt("none")
  }

  /** `tuple(sort_value(q, k) for k in keys)`. */
  function SortTuple(q: Quest, names: seq<string>, ref: int): (r: seq<SortValue>)
    ensures |r| == |names| && forall i :: 0 <= i < |names| ==> r[i] == SortValueOf(q, names[i], ref)
  {
    seq(|names|, i requires 0 <= i < |names| => SortValueOf(q, names[i], ref))
  }

  function SortTuples(quests: seq<Quest>, names: seq<string>, ref: int): (r: seq<seq<SortValue>>)
    ensures |r| == |quests| && forall i :: 0 <= i < |quests| ==> r[i] == SortTuple(quests[i], names, ref)
  {
    seq(|quests|, i requires 0 <= i < |quests| => SortTuple(quests[i], names, ref))
  }

  /** No two tuples make Python's comparison raise. */
  predicate NoClash(ks: seq<seq<SortValue>>) {
    forall i, j :: 0 <= i < |ks| && 0 <= j < |ks| ==> KeyCmp(ks[i], ks[j]) != Clash
  }

  /** The positions of the input quests, in the order the sort puts them. */
  function SortOrder(quests: seq<Quest>, cfg: SortConfig, ref: int): (p: seq<nat>)
    ensures multiset(p) == multiset(Range(|quests|))
    ensures |p| == |quests| && forall i :: 0 <= i < |p| ==> p[i] < |quests|
  {
    var names := KeyNames(cfg);
    var ks := SortTuples(quests, names, ref);
    if names == [] || !NoClash(ks) then Range(|quests|)
    else
      var p := SortIdx(ks, Ascending(cfg), Range(|quests|));
      assert |p| == |quests| by { assert |multiset(p)| == |multiset(Range(|quests|))|; }
      PermutationInRange(p, |quests|);
      p
  }

  /** The quests at positions `p`, in that order. */
  function Pick<T>(quests: seq<T>, p: seq<nat>): (r: seq<T>)
    requires InRange(p, |quests|)
    ensures |r| == |p| && forall i :: 0 <= i < |p| ==> r[i] == quests[p[i]]
    decreases |p|
  {
    if p == [] then []
    else
      [quests[p[0]]] + Pick(quests, p[1..])
  }

  lemma {:induction false} PickAppend<T>(quests: seq<T>, a: seq<nat>, b: seq<nat>)
    requires InRange(a, |quests|) && InRange(b, |quests|)
    ensures Pick(quests, a + b) == Pick(quests, a) + Pick(quests, b)
  {
  }

  lemma {:induction false} PickRange<T>(quests: seq<T>, k: nat)
    requires k <= |quests|
    ensures Pick(quests, Range(k)) == quests[..k]
    decreases k
  {
    if k > 0 {
      PickRange(quests, k - 1);
      assert Range(k) == Range(k - 1) + [k - 1];
      PickAppend(quests, Range(k - 1), [k - 1]);
      assert quests[..k] == quests[..k - 1] + [quests[k - 1]];
    }
  }

  lemma RemoveAt(q: seq<nat>, k: nat)
    requires k < |q|
    ensures q == q[..k] + [q[k]] + q[k + 1..]
    ensures multiset(q[..k] + q[k + 1..]) == multiset(q) - multiset{q[k]}
  {
    assert q == q[..k] + [q[k]] + q[k + 1..];
  }

  lemma SameAfterRemoval(p: seq<nat>, q: seq<nat>, k: nat)
    requires multiset(p) == multiset(q) && p != [] && k < |q| && q[k] == p[0]
    ensures multiset(p[1..]) == multiset(q[..k] + q[k + 1..])
  {
    RemoveAt(q, k);
    assert p == [p[0]] + p[1..];
    assert multiset(p[1..]) == multiset(p) - multiset{p[0]};
  }

  lemma InRangeAppend(a: seq<nat>, b: seq<nat>, n: nat)
    requires InRange(a, n) && InRange(b, n)
    ensures InRange(a + b, n)
  {
    forall i | 0 <= i < |a + b| ensures (a + b)[i] < n {
      if i >= |a| {
        assert (a + b)[i] == b[i - |a|];
      }
    }
  }

  lemma MultisetMiddle<T>(a: seq<T>, x: T, b: seq<T>)
    ensures multiset(a + [x] + b) == multiset(a + b) + multiset{x}
  {
  }

  /** Picking at `q` is picking before position `k`, at `k`, and after it. */
  lemma PickSplit<T>(quests: seq<T>, q: seq<nat>, k: nat)
    requires InRange(q, |quests|) && k < |q|
    ensures InRange(q[..k], |quests|) && InRange(q[k + 1..], |quests|)
    ensures Pick(quests, q) == Pick(quests, q[..k]) + [quests[q[k]]] + Pick(quests, q[k + 1..])
  {
    var a, b := q[..k], q[k + 1..];
    InRangeSlices(q, |quests|, k);
    var pa, pb, x := Pick(quests, a), Pick(quests, b), quests[q[k]];
    var whole, parts := Pick(quests, q), pa + [x] + pb;
    assert |whole| == |parts|;
    forall i | 0 <= i < |q| ensures whole[i] == parts[i] {
      if i < k {
        assert parts[i] == pa[i] && a[i] == q[i];
      } else if k < i {
        assert parts[i] == pb[i - k - 1] && b[i - k - 1] == q[i];
      } else {
        assert parts[i] == x;
      }
    }
    assert whole == parts;
  }

  lemma InRangeSlices(q: seq<nat>, n: nat, k: nat)
    requires InRange(q, n) && k < |q|
    ensures InRange(q[..k], n) && InRange(q[k + 1..], n)
  {
    var a, b := q[..k], q[k + 1..];
    forall i | 0 <= i < |a| ensures a[i] < n { assert a[i] == q[i]; }
    forall i | 0 <= i < |b| ensures b[i] < n { assert b[i] == q[k + 1 + i]; }
  }

  /** Picking at `q` is picking at `q` without its `k`-th position, plus that one quest. */
  lemma PickRemove<T>(quests: seq<T>, q: seq<nat>, k: nat)
    requires InRange(q, |quests|) && k < |q|
    ensures InRange(q[..k] + q[k + 1..], |quests|)
    ensures multiset(Pick(quests, q)) == multiset(Pick(quests, q[..k] + q[k + 1..])) + multiset{quests[q[k]]}
  {
    var a, b := q[..k], q[k + 1..];
    PickSplit(quests, q, k);
    InRangeAppend(a, b, |quests|);
    PickAppend(quests, a, b);
    MultisetMiddle(Pick(quests, a), quests[q[k]], Pick(quests, b));
  }

  /** Picking at `p` is the quest at its first position, then picking at the rest. */
  lemma PickHead<T>(quests: seq<T>, p: seq<nat>)
    requires InRange(p, |quests|) && p != []
    ensures InRange(p[1..], |quests|)
    ensures multiset(Pick(quests, p)) == multiset(Pick(quests, p[1..])) + multiset{quests[p[0]]}
  {
    var tail := p[1..];
    assert InRange(tail, |quests|) by {
      forall i | 0 <= i < |tail| ensures tail[i] < |quests| { assert tail[i] == p[i + 1]; }
    }
    assert Pick(quests, p) == [quests[p[0]]] + Pick(quests, tail);
  }

  /** Rearranging the positions rearranges the quests picked: the same quests, as many times. */
  lemma {:induction false} PickPermutation<T>(quests: seq<T>, p: seq<nat>, q: seq<nat>)
    requires InRange(p, |quests|) && InRange(q, |quests|) && multiset(p) == multiset(q)
    ensures multiset(Pick(quests, p)) == multiset(Pick(quests, q))
    decreases |p|
  {
    if p == [] {
      assert |q| == 0 by { assert |multiset(q)| == 0; }
    } else {
      assert p[0] in multiset(q);
      var k :| 0 <= k < |q| && q[k] == p[0];
      PickHead(quests, p);
      PickRemove(quests, q, k);
      SameAfterRemoval(p, q, k);
      PickPermutation(quests, p[1..], q[..k] + q[k + 1..]);
    }
  }

  /** `_sort_quests(quests)`: the input quests, each once, in the order `SortOrder` gives. */
  function SortQuests(quests: seq<Quest>, cfg: SortConfig, ref: int): (r: seq<Quest>)
    ensures |r| == |quests| && multiset(r) == multiset(quests)
    ensures forall i :: 0 <= i < |r| ==> r[i] == quests[SortOrder(quests, cfg, ref)[i]]
  {
    var p := SortOrder(quests, cfg, ref);
    PermutationInRange(p, |quests|);
    RangeFacts(|quests|);
    PickPermutation(quests, p, Range(|quests|));
    PickRange(quests, |quests|);
    assert quests[..|quests|] == quests;
    Pick(quests, p)
  }

  // ---------------------------------------------------------------------------
  // What the sort promises
  // ---------------------------------------------------------------------------

  /**
   * Position `i` goes before position `j` in Python's stable sort: its tuple
   * compares smaller (larger when descending), or equal and `i` came first.
   */
  predicate PyBefore(ks: seq<seq<SortValue>>, asc: bool, i: nat, j: nat) {
    i < |ks| && j < |ks| &&
    var c := KeyCmp(ks[i], ks[j]);
    (if asc then c == Less else c == Greater) || (c == Same && i < j)
  }

  lemma NoClashBefore(ks: seq<seq<SortValue>>, asc: bool)
    requires NoClash(ks)
    ensures forall i: nat, j: nat :: PyBefore(ks, asc, i, j) == Before(ks, asc, i, j)
  {
    forall i: nat, j: nat | i < |ks| && j < |ks| ensures PyBefore(ks, asc, i, j) == Before(ks, asc, i, j) {
      KeyCmpAgrees(ks[i], ks[j]);
    }
  }

  /** Without keys, or when two tuples cannot be compared, the input comes back unchanged. */
  lemma SortQuestsUnchanged(quests: seq<Quest>, cfg: SortConfig, ref: int)
    requires KeyNames(cfg) == [] || !NoClash(SortTuples(quests, KeyNames(cfg), ref))
    ensures SortQuests(quests, cfg, ref) == quests
  {
  }

  /** Otherwise every quest goes before the ones after it in Python's stable order. */
  lemma SortQuestsOrdered(quests: seq<Quest>, cfg: SortConfig, ref: int)
    requires KeyNames(cfg) != [] && NoClash(SortTuples(quests, KeyNames(cfg), ref))
    ensures var p := SortOrder(quests, cfg, ref);
      forall a, b :: 0 <= a < b < |p| ==> PyBefore(SortTuples(quests, KeyNames(cfg), ref), Ascending(cfg), p[a], p[b])
  {
    var ks := SortTuples(quests, KeyNames(cfg), ref);
    RangeFacts(|quests|);
    SortIdxSorted(ks, Ascending(cfg), Range(|quests|));
    NoClashBefore(ks, Ascending(cfg));
  }

  /**
   * The order is the only one of its kind: any rearrangement of the positions in
   * Python's stable order is the one the sort produces.
   */
  lemma StableOrderUnique(ks: seq<seq<SortValue>>, asc: bool, q: seq<nat>)
    requires NoClash(ks) && multiset(q) == multiset(Range(|ks|))
    requires forall a, b :: 0 <= a < b < |q| ==> PyBefore(ks, asc, q[a], q[b])
    ensures q == SortIdx(ks, asc, Range(|ks|))
  {
    RangeFacts(|ks|);
    SortIdxSorted(ks, asc, Range(|ks|));
    NoClashBefore(ks, asc);
    SortedUnique(ks, asc, q, SortIdx(ks, asc, Range(|ks|)));
  }

  /** Quests whose tuples are equal keep their input order, ascending and descending alike. */
  lemma TiesKeepInputOrder(quests: seq<Quest>, cfg: SortConfig, ref: int, i: nat, j: nat)
    requires KeyNames(cfg) != [] && NoClash(SortTuples(quests, KeyNames(cfg), ref))
    requires i < j < |quests| && SortTuple(quests[i], KeyNames(cfg), ref) == SortTuple(quests[j], KeyNames(cfg), ref)
    ensures var p := SortOrder(quests, cfg, ref);
      forall a, b :: 0 <= a < |p| && 0 <= b < |p| && p[a] == i && p[b] == j ==> a < b
  {
    var ks := SortTuples(quests, KeyNames(cfg), ref);
    var p := SortOrder(quests, cfg, ref);
    SortQuestsOrdered(quests, cfg, ref);
    KeyOrdProperties(ks[j], ks[i]);
    KeyCmpAgrees(ks[j], ks[i]);
  }

  function AscendingBy(keys: SortKeys): SortConfig { SortConfig(keys, Some("asc")) }

  function DescendingBy(keys: SortKeys): SortConfig { SortConfig(keys, Some("desc")) }

  lemma OrderWords()
    ensures Lower("asc") == "asc" && Lower("desc") != "asc"
  {
    LowerIsLowerCase("asc");
    assert Lower("desc")[0] == 'd';
  }

  predicate DistinctTuples(ks: seq<seq<SortValue>>) {
    forall x, y :: 0 <= x < y < |ks| ==> ks[x] != ks[y]
  }

  lemma ReverseSorted(ks: seq<seq<SortValue>>, up: seq<nat>)
    requires SortedBy(ks, true, up) && DistinctTuples(ks)
    ensures SortedBy(ks, false, Reverse(up))
  {
    var rev := Reverse(up);
    forall a, b | 0 <= a < b < |rev| ensures Before(ks, false, rev[a], rev[b]) {
      var x, y := up[|up| - 1 - b], up[|up| - 1 - a];
      assert Before(ks, true, x, y);
      KeyOrdProperties(ks[x], ks[y]);
      assert x != y;
      assert ks[x] != ks[y] by {
        if x < y { assert !(ks[x] == ks[y]); } else { assert ks[y] != ks[x]; }
      }
    }
  }

  /**
   * When no two quests have equal tuples, the descending order is the ascending
   * order reversed.
   */
  lemma DescendingReversesDistinct(quests: seq<Quest>, keys: SortKeys, ref: int)
    requires KeyNames(AscendingBy(keys)) != []
    requires NoClash(SortTuples(quests, KeyNames(AscendingBy(keys)), ref))
    requires forall i, j :: 0 <= i < j < |quests| ==>
      SortTuple(quests[i], KeyNames(AscendingBy(keys)), ref) != SortTuple(quests[j], KeyNames(AscendingBy(keys)), ref)
    ensures SortOrder(quests, DescendingBy(keys), ref) == Reverse(SortOrder(quests, AscendingBy(keys), ref))
  {
    var ks := SortTuples(quests, KeyNames(AscendingBy(keys)), ref);
    var n := |quests|;
    assert DistinctTuples(ks);
    OrderWords();
    RangeFacts(n);
    var up := SortIdx(ks, true, Range(n));
    SortIdxSorted(ks, true, Range(n));
    ReverseSorted(ks, up);
    ReverseMultiset(up);
    SortIdxSorted(ks, false, Range(n));
    SortedUnique(ks, false, Reverse(up), SortIdx(ks, false, Range(n)));
  }

  /** A position of `p` holding `x`, when `p` arranges `0, 1, …, n - 1` and `x < n`. */
  lemma PositionOf(p: seq<nat>, n: nat, x: nat) returns (a: nat)
    requires multiset(p) == multiset(Range(n)) && x < n
    ensures a < |p| && p[a] == x
  {
    assert Range(n)[x] == x;
    assert x in multiset(p);
    a :| 0 <= a < |p| && p[a] == x;
  }

  /**
   * If `i` comes before `j` in two arrangements of `0, 1, …, n - 1`, the second
   * is not the first reversed.
   */
  lemma SameOrderNotReversed(up: seq<nat>, dn: seq<nat>, n: nat, i: nat, j: nat)
    requires multiset(up) == multiset(Range(n)) && i < n && j < n && i != j
    requires forall a, b :: 0 <= a < |up| && 0 <= b < |up| && up[a] == i && up[b] == j ==> a < b
    requires forall a, b :: 0 <= a < |dn| && 0 <= b < |dn| && dn[a] == i && dn[b] == j ==> a < b
    ensures dn != Reverse(up)
  {
    var a := PositionOf(up, n, i);
    var b := PositionOf(up, n, j);
    var m, r := |up|, Reverse(up);
    assert r[m - 1 - a] == i && r[m - 1 - b] == j;
    assert m - 1 - b < m - 1 - a;
  }

  /**
   * Two quests with equal tuples keep their input order in both directions, so
   * the descending order is never the ascending order reversed.
   */
  lemma TiedNotReversed(quests: seq<Quest>, keys: SortKeys, ref: int, i: nat, j: nat)
    requires KeyNames(AscendingBy(keys)) != []
    requires NoClash(SortTuples(quests, KeyNames(AscendingBy(keys)), ref))
    requires i < j < |quests|
    requires SortTuple(quests[i], KeyNames(AscendingBy(keys)), ref) == SortTuple(quests[j], KeyNames(AscendingBy(keys)), ref)
    ensures SortOrder(quests, DescendingBy(keys), ref) != Reverse(SortOrder(quests, AscendingBy(keys), ref))
  {
    TiesKeepInputOrder(quests, AscendingBy(keys), ref, i, j);
    TiesKeepInputOrder(quests, DescendingBy(keys), ref, i, j);
    SameOrderNotReversed(SortOrder(quests, AscendingBy(keys), ref), SortOrder(quests, DescendingBy(keys), ref), |quests|, i, j);
  }

  /** Among pairwise different items, equal picks come from equal positions. */
  lemma ReversedPicks<T>(items: seq<T>, dn: seq<nat>, up: seq<nat>, xd: seq<T>, xu: seq<T>)
    requires forall x, y :: 0 <= x < y < |items| ==> items[x] != items[y]
    requires |dn| == |up| == |xd| == |xu|
    requires forall k :: 0 <= k < |dn| ==> dn[k] < |items| && xd[k] == items[dn[k]]
    requires forall k :: 0 <= k < |up| ==> up[k] < |items| && xu[k] == items[up[k]]
    requires xd == Reverse(xu)
    ensures dn == Reverse(up)
  {
    var m := |up|;
    forall k | 0 <= k < m ensures dn[k] == Reverse(up)[k] {
      var x, y := dn[k], up[m - 1 - k];
      assert items[x] == items[y];
    }
  }

  /** Each sorted quest is the input quest at the position the order names. */
  lemma SortPicks(quests: seq<Quest>, cfg: SortConfig, ref: int)
    ensures var p, r := SortOrder(quests, cfg, ref), SortQuests(quests, cfg, ref);
      |p| == |r| == |quests| && forall k :: 0 <= k < |p| ==> p[k] < |quests| && r[k] == quests[p[k]]
  {
  }

  /** The same for the quests themselves, when no two quests are equal. */
  lemma TiedNotReversedDistinct(quests: seq<Quest>, keys: SortKeys, ref: int, i: nat, j: nat)
    requires KeyNames(AscendingBy(keys)) != []
    requires NoClash(SortTuples(quests, KeyNames(AscendingBy(keys)), ref))
    requires i < j < |quests|
    requires SortTuple(quests[i], KeyNames(AscendingBy(keys)), ref) == SortTuple(quests[j], KeyNames(AscendingBy(keys)), ref)
    requires forall x, y :: 0 <= x < y < |quests| ==> quests[x] != quests[y]
    ensures SortQuests(quests, DescendingBy(keys), ref) != Reverse(SortQuests(quests, AscendingBy(keys), ref))
  {
    TiedNotReversed(quests, keys, ref, i, j);
    var dn, xd := SortOrder(quests, DescendingBy(keys), ref), SortQuests(quests, DescendingBy(keys), ref);
    var up, xu := SortOrder(quests, AscendingBy(keys), ref), SortQuests(quests, AscendingBy(keys), ref);
    SortPicks(quests, DescendingBy(keys), ref);
    SortPicks(quests, AscendingBy(keys), ref);
    if xd == Reverse(xu) {
      ReversedPicks(quests, dn, up, xd, xu);
    }
  }

  lemma {:induction false} StrCmpSelf(s: string)
    ensures StrCmp(s, s) == Same
  {
    StrCmpProperties(s, s);
  }

  lemma {:induction false} KeyCmpSelf(t: seq<SortValue>)
    ensures KeyCmp(t, t) == Same
    decreases |t|
  {
    if t != [] {
      if t[0].Txt? {
        StrCmpSelf(t[0].t);
      }
      KeyCmpSelf(t[1..]);
    }
  }

  /** When every quest has the same tuple, both directions keep the input order. */
  lemma AllTiedKeepOrder(quests: seq<Quest>, cfg: SortConfig, ref: int)
    requires KeyNames(cfg) != []
    requires forall x :: 0 <= x < |quests| ==> SortTuple(quests[x], KeyNames(cfg), ref) == SortTuple(quests[0], KeyNames(cfg), ref)
    ensures SortQuests(quests, cfg, ref) == quests
  {
    var n := |quests|;
    var ks := SortTuples(quests, KeyNames(cfg), ref);
    if n > 0 {
      KeyCmpSelf(ks[0]);
    }
    assert NoClash(ks);
    forall a, b | 0 <= a < b < n ensures PyBefore(ks, Ascending(cfg), Range(n)[a], Range(n)[b]) {
      assert ks[a] == ks[0] && ks[b] == ks[0];
    }
    StableOrderUnique(ks, Ascending(cfg), Range(n));
    assert SortOrder(quests, cfg, ref) == Range(n);
  }

  /** A list of tied quests that reads the same backwards sorts to its own reverse. */
  lemma AllTiedPalindrome(quests: seq<Quest>, keys: SortKeys, ref: int)
    requires KeyNames(AscendingBy(keys)) != [] && Reverse(quests) == quests
    requires forall x :: 0 <= x < |quests| ==>
      SortTuple(quests[x], KeyNames(AscendingBy(keys)), ref) == SortTuple(quests[0], KeyNames(AscendingBy(keys)), ref)
    ensures SortQuests(quests, DescendingBy(keys), ref) == Reverse(SortQuests(quests, AscendingBy(keys), ref))
  {
    AllTiedKeepOrder(quests, AscendingBy(keys), ref);
    AllTiedKeepOrder(quests, DescendingBy(keys), ref);
  }

  /**
   * Equal tuples alone do not rule out the quest list coming back reversed: with
   * `[a, b, a]` and tied tuples, descending is ascending reversed even when `a != b`.
   */
  lemma TiedPalindrome(a: Quest, b: Quest, keys: SortKeys, ref: int)
    requires KeyNames(AscendingBy(keys)) != []
    requires SortTuple(a, KeyNames(AscendingBy(keys)), ref) == SortTuple(b, KeyNames(AscendingBy(keys)), ref)
    ensures SortQuests([a, b, a], DescendingBy(keys), ref) == Reverse(SortQuests([a, b, a], AscendingBy(keys), ref))
  {
    var qs := [a, b, a];
    assert Reverse(qs) == qs;
    assert qs[0] == a && qs[1] == b && qs[2] == a;
    AllTiedPalindrome(qs, keys, ref);
  }

  /**
   * A missing field sorts as the empty text, which no text follows; a quest
   * without a deadline counts from deadline 0.
   */
  lemma MissingFields(q: Quest, key: string, ref: int, t: string)
    ensures key != "time_remaining" && !HasKey(q, key) ==>
      SortValueOf(q, key, ref) == Txt("") && ValueCmp(Txt(""), Txt(t)) != Greater
    ensures !HasKey(q, "completion_deadline") ==> SortValueOf(q, "time_remaining", ref) == Num(-ref)
  {
    if key != "time_remaining" && !HasKey(q, key) {
      assert ParseInt("") == None;
    }
  }

  function DeadlineQuest(d: int): Quest { [("completion_deadline", Int(d))] }

  lemma DeadlineTuples(quests: seq<Quest>, names: seq<string>, ref: int)
    requires quests == [DeadlineQuest(100), DeadlineQuest(50), DeadlineQuest(200)]
    requires names == ["time_remaining"]
    ensures SortTuples(quests, names, ref) == [[Num(100 - ref)], [Num(50 - ref)], [Num(200 - ref)]]
  {
    assert SortTuple(quests[0], names, ref) == [Num(100 - ref)];
    assert SortTuple(quests[1], names, ref) == [Num(50 - ref)];
    assert SortTuple(quests[2], names, ref) == [Num(200 - ref)];
  }

  lemma ThreePermutations(q: seq<nat>)
    requires q == [1, 0, 2] || q == [2, 0, 1]
    ensures multiset(q) == multiset(Range(3))
  {
    assert Range(3) == [0, 1, 2];
  }

  /** With keys and no clash, the order is the stable sort of the tuples. */
  lemma SortOrderSorts(quests: seq<Quest>, cfg: SortConfig, ref: int)
    requires KeyNames(cfg) != [] && NoClash(SortTuples(quests, KeyNames(cfg), ref))
    ensures SortOrder(quests, cfg, ref) == SortIdx(SortTuples(quests, KeyNames(cfg), ref), Ascending(cfg), Range(|quests|))
  {
  }

  lemma DeadlineNoClash(ks: seq<seq<SortValue>>, ref: int)
    requires ks == [[Num(100 - ref)], [Num(50 - ref)], [Num(200 - ref)]]
    ensures NoClash(ks)
  {
  }

  lemma DeadlineIdxUp(ks: seq<seq<SortValue>>, ref: int)
    requires ks == [[Num(100 - ref)], [Num(50 - ref)], [Num(200 - ref)]] && NoClash(ks)
    ensures SortIdx(ks, true, Range(3)) == [1, 0, 2]
  {
    var q: seq<nat> := [1, 0, 2];
    ThreePermutations(q);
    assert PyBefore(ks, true, 1, 0);
    assert PyBefore(ks, true, 1, 2);
    assert PyBefore(ks, true, 0, 2);
    StableOrderUnique(ks, true, q);
  }

  lemma DeadlineIdxDown(ks: seq<seq<SortValue>>, ref: int)
    requires ks == [[Num(100 - ref)], [Num(50 - ref)], [Num(200 - ref)]] && NoClash(ks)
    ensures SortIdx(ks, false, Range(3)) == [2, 0, 1]
  {
    var q: seq<nat> := [2, 0, 1];
    ThreePermutations(q);
    assert PyBefore(ks, false, 2, 0);
    assert PyBefore(ks, false, 2, 1);
    assert PyBefore(ks, false, 0, 1);
    StableOrderUnique(ks, false, q);
  }

  lemma DeadlineOrder(quests: seq<Quest>, cfg: SortConfig, ref: int)
    requires quests == [DeadlineQuest(100), DeadlineQuest(50), DeadlineQuest(200)]
    requires KeyNames(cfg) == ["time_remaining"]
    ensures SortOrder(quests, cfg, ref) == if Ascending(cfg) then [1, 0, 2] else [2, 0, 1]
  {
    var ks := SortTuples(quests, KeyNames(cfg), ref);
    DeadlineTuples(quests, KeyNames(cfg), ref);
    DeadlineNoClash(ks, ref);
    if Ascending(cfg) {
      DeadlineIdxUp(ks, ref);
    } else {
      DeadlineIdxDown(ks, ref);
    }
    SortOrderSorts(quests, cfg, ref);
  }

  /**
   * Deadlines 100, 50 and 200 sorted by `time_remaining`, whatever the reference
   * time: 50, 100, 200 ascending.
   */
  lemma DeadlineExampleAscending(quests: seq<Quest>, keys: SortKeys, ref: int)
    requires quests == [DeadlineQuest(100), DeadlineQuest(50), DeadlineQuest(200)]
    requires keys == KeyList(["time_remaining"])
    ensures var r := SortQuests(quests, AscendingBy(keys), ref);
      |r| == 3 && r[0] == DeadlineQuest(50) && r[1] == DeadlineQuest(100) && r[2] == DeadlineQuest(200)
  {
    var cfg := AscendingBy(keys);
    OrderWords();
    assert Ascending(cfg);
    DeadlineOrder(quests, cfg, ref);
    var r := SortQuests(quests, cfg, ref);
    assert r[0] == quests[1] && r[1] == quests[0] && r[2] == quests[2];
  }

  /** The same quests descending: 200, 100, 50, exactly the ascending order reversed. */
  lemma DeadlineExampleDescending(quests: seq<Quest>, keys: SortKeys, ref: int)
    requires quests == [DeadlineQuest(100), DeadlineQuest(50), DeadlineQuest(200)]
    requires keys == KeyList(["time_remaining"])
    ensures var r := SortQuests(quests, DescendingBy(keys), ref);
      |r| == 3 && r[0] == DeadlineQuest(200) && r[1] == DeadlineQuest(100) && r[2] == DeadlineQuest(50)
  {
    var cfg := DescendingBy(keys);
    OrderWords();
    assert !Ascending(cfg);
    DeadlineOrder(quests, cfg, ref);
    var r := SortQuests(quests, cfg, ref);
    assert r[0] == quests[2] && r[1] == quests[0] && r[2] == quests[1];
  }
}
