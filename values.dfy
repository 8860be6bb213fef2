/**
 * Scalar JSON/SQLite values as the widget sees them inside a quest, and Python's
 * insertion-ordered `dict` as an association list.  A quest is such a dict.
 */
module Values {
  import opened Wrappers
  import opened Text

  /** A scalar value of a quest field (floats are not modelled). */
  datatype Value = Null | Bool(b: bool) | Int(i: int) | Str(s: string)

  /** Python's `str(v)`. */
  function PyStr(v: Value): string {
    match v
    case Null => "None"
    case Bool(b) => if b then "True" else "False"
    case Int(i) => IntToString(i)
    case Str(s) => s
  }

  /** Python truthiness of a scalar. */
  predicate Truthy(v: Value) {
    match v
    case Null => false
    case Bool(b) => b
    case Int(i) => i != 0
    case Str(s) => s != ""
  }

  /** Python's `int(v)`; `None` stands for the `TypeError`/`ValueError` raised. */
  function IntOf(v: Value): Option<int> {
    match v
    case Null => None
    case Bool(b) => Some(if b then 1 else 0)
    case Int(i) => Some(i)
    case Str(s) => ParseInt(s)
  }

  // ---------------------------------------------------------------------------
  // JSON documents
  // ---------------------------------------------------------------------------

  /** A parsed JSON document; an object keeps its keys in file order. */
  datatype Json = JNull | JBool(b: bool) | JInt(i: int) | JStr(s: string) | JArr(items: seq<Json>) | JObj(fields: Dict<Json>)

  /** Python truthiness of a parsed document. */
  predicate JTruthy(j: Json) {
    match j
    case JNull => false
    case JBool(b) => b
    case JInt(i) => i != 0
    case JStr(s) => s != ""
    case JArr(items) => items != []
    case JObj(fields) => fields != []
  }

  /** A scalar as it is written to a JSON document. */
  function ValueToJson(v: Value): (j: Json)
    ensures JTruthy(j) == Truthy(v)
  {
    match v
    case Null => JNull
    case Bool(b) => JBool(b)
    case Int(i) => JInt(i)
    case Str(s) => JStr(s)
  }

  /** A scalar read back from a JSON document; `None` for an array or an object. */
  function JsonToValue(j: Json): (r: Option<Value>)
    ensures r.Some? ==> ValueToJson(r.value) == j
    ensures r.None? <==> j.JArr? || j.JObj?
  {
    match j
    case JNull => Some(Null)
    case JBool(b) => Some(Bool(b))
    case JInt(i) => Some(Int(i))
    case JStr(s) => Some(Str(s))
    case _ => None
  }

  lemma ValueJsonRoundTrip(v: Value)
    ensures JsonToValue(ValueToJson(v)) == Some(v)
  {
  }

  // ---------------------------------------------------------------------------
  // Insertion-ordered dictionaries
  // ---------------------------------------------------------------------------

  /** A Python dict with string keys: its items in insertion order. */
  type Dict<V> = seq<(string, V)>

  type Quest = Dict<Value>

  function Keys<V>(d: Dict<V>): (r: seq<string>)
    ensures |r| == |d|
    ensures forall i :: 0 <= i < |d| ==> r[i] == d[i].0
  {
    seq(|d|, i requires 0 <= i < |d| => d[i].0)
  }

  /** Every key occurs once, as in a Python dict. */
  predicate UniqueKeys<V>(d: Dict<V>) {
    forall i, j :: 0 <= i < j < |d| ==> d[i].0 != d[j].0
  }

  predicate HasKey<V>(d: Dict<V>, k: string) {
    k in Keys(d)
  }

  /** `d.get(k)`: the value stored under `k`, if any. */
  function Get<V>(d: Dict<V>, k: string): (r: Option<V>)
    ensures r.Some? <==> HasKey(d, k)
    decreases |d|
  {
    if d == [] then None
    else if d[0].0 == k then Some(d[0].1)
    else Get(d[1..], k)
  }

  /** `d.get(k, default)`. */
  function GetOr<V>(d: Dict<V>, k: string, default: V): V {
    Get(d, k).GetOr(default)
  }

  /**
   * `d[k] = v`: an existing key keeps its position and takes the new value, a
   * new key is appended.
   */
  function Set<V>(d: Dict<V>, k: string, v: V): Dict<V>
    decreases |d|
  {
    if d == [] then [(k, v)]
    else if d[0].0 == k then [(k, v)] + d[1..]
    else [d[0]] + Set(d[1..], k, v)
  }

  /** `d.update(e)`: the items of `e` assigned one by one, in order. */
  function Update<V>(d: Dict<V>, e: Dict<V>): Dict<V>
    decreases |e|
  {
    if e == [] then d else Update(Set(d, e[0].0, e[0].1), e[1..])
  }

  /** `d.get(k)` finds the first entry under `k`. */
  lemma {:induction false} GetFirst<V>(d: Dict<V>, i: nat)
    requires i < |d| && forall j :: 0 <= j < i ==> d[j].0 != d[i].0
    ensures Get(d, d[i].0) == Some(d[i].1)
    decreases i
  {
    if i > 0 {
      GetFirst(d[1..], i - 1);
    }
  }

  lemma {:induction false} GetSet<V>(d: Dict<V>, k: string, v: V, j: string)
    ensures Get(Set(d, k, v), j) == if j == k then Some(v) else Get(d, j)
    decreases |d|
  {
    if d != [] && d[0].0 != k {
      GetSet(d[1..], k, v, j);
    }
  }

  /** Assignment changes no key's position and appends only a new key. */
  lemma {:induction false} KeysSet<V>(d: Dict<V>, k: string, v: V)
    ensures Keys(Set(d, k, v)) == if HasKey(d, k) then Keys(d) else Keys(d) + [k]
    decreases |d|
  {
    if d != [] && d[0].0 != k {
      KeysSet(d[1..], k, v);
      assert Keys(d) == [d[0].0] + Keys(d[1..]);
      assert Keys(Set(d, k, v)) == [d[0].0] + Keys(Set(d[1..], k, v));
    } else if d != [] {
      assert Keys(Set(d, k, v)) == [k] + Keys(d[1..]);
      assert Keys(d) == [k] + Keys(d[1..]);
    }
  }

  /**
   * In a dict without repeated keys, assignment rewrites the one item holding
   * the key, or appends a new item when the key is absent.
   */
  /** The entries after the first of a dict have unique keys, none of them the first key. */
  lemma TailUnique<V>(d: Dict<V>)
    requires UniqueKeys(d) && d != []
    ensures UniqueKeys(d[1..])
    ensures forall i :: 0 <= i < |d[1..]| ==> d[1..][i].0 != d[0].0
    ensures HasKey(d, d[0].0)
    ensures forall k :: HasKey(d, k) <==> k == d[0].0 || HasKey(d[1..], k)
  {
    var t := d[1..];
    forall i, j | 0 <= i < j < |t| ensures t[i].0 != t[j].0 {
      assert t[i] == d[i + 1] && t[j] == d[j + 1];
    }
    forall i | 0 <= i < |t| ensures t[i].0 != d[0].0 {
      assert t[i] == d[i + 1];
    }
    assert Keys(d) == [d[0].0] + Keys(t);
  }

  lemma {:induction false} SetItems<V>(d: Dict<V>, k: string, v: V)
    requires UniqueKeys(d)
    ensures HasKey(d, k) ==> |Set(d, k, v)| == |d|
    ensures !HasKey(d, k) ==> Set(d, k, v) == d + [(k, v)]
    ensures forall i :: 0 <= i < |d| ==> Set(d, k, v)[i] == if d[i].0 == k then (k, v) else d[i]
    decreases |d|
  {
    if d != [] {
      var t := d[1..];
      var r := Set(d, k, v);
      TailUnique(d);
      SetItems(t, k, v);
      if d[0].0 == k {
        assert r == [(k, v)] + t;
        forall i | 0 <= i < |d| ensures r[i] == if d[i].0 == k then (k, v) else d[i] {
          if i > 0 {
            assert r[i] == t[i - 1] == d[i];
          }
        }
      } else {
        var rt := Set(t, k, v);
        assert r == [d[0]] + rt;
        forall i | 0 <= i < |d| ensures r[i] == if d[i].0 == k then (k, v) else d[i] {
          if i > 0 {
            assert r[i] == rt[i - 1] && t[i - 1] == d[i];
          }
        }
        if !HasKey(d, k) {
          assert d == [d[0]] + t;
        }
      }
    }
  }

  lemma {:induction false} SetKeepsUnique<V>(d: Dict<V>, k: string, v: V)
    requires UniqueKeys(d)
    ensures UniqueKeys(Set(d, k, v))
  {
    KeysSet(d, k, v);
    var r := Set(d, k, v);
    forall i, j | 0 <= i < j < |r| ensures r[i].0 != r[j].0 {
      assert Keys(r)[i] == r[i].0 && Keys(r)[j] == r[j].0;
      if HasKey(d, k) {
        assert Keys(d)[i] == d[i].0 && Keys(d)[j] == d[j].0;
      } else if j < |d| {
        assert Keys(d)[i] == d[i].0 && Keys(d)[j] == d[j].0;
      } else {
        assert Keys(r)[j] == k;
        assert Keys(d)[i] == d[i].0;
      }
    }
  }

  /**
   * After `combined.update(quest); combined.update(globals)` a key of `globals`
   * reads the globals value; every other key reads what it read before.
   */
  lemma {:induction false} GetUpdate<V>(d: Dict<V>, e: Dict<V>, k: string)
    requires UniqueKeys(e)
    ensures Get(Update(d, e), k) == if HasKey(e, k) then Get(e, k) else Get(d, k)
    decreases |e|
  {
    if e != [] {
      assert UniqueKeys(e[1..]) by {
        forall i, j | 0 <= i < j < |e[1..]| ensures e[1..][i].0 != e[1..][j].0 {
          assert e[1..][i] == e[i + 1] && e[1..][j] == e[j + 1];
        }
      }
      GetUpdate(Set(d, e[0].0, e[0].1), e[1..], k);
      GetSet(d, e[0].0, e[0].1, k);
      assert Keys(e) == [e[0].0] + Keys(e[1..]);
      if e[0].0 == k {
        assert !HasKey(e[1..], k) by {
          forall i | 0 <= i < |e[1..]| ensures Keys(e[1..])[i] != k {
            assert e[1..][i] == e[i + 1];
          }
        }
      }
    }
  }

  lemma {:induction false} UpdateKeepsUnique<V>(d: Dict<V>, e: Dict<V>)
    requires UniqueKeys(d)
    ensures UniqueKeys(Update(d, e))
    decreases |e|
  {
    if e != [] {
      SetKeepsUnique(d, e[0].0, e[0].1);
      UpdateKeepsUnique(Set(d, e[0].0, e[0].1), e[1..]);
    }
  }
}
