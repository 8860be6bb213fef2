/**
 * Normalisation of a keyboard shortcut such as `"Alt + Ctrl + F"`: spaces are
 * removed, the text is lower-cased, empty `+` pieces are dropped and the modifiers
 * `ctrl`, `alt`, `shift` are put first, each once, in that fixed order.
 */
module Combo {
  import opened Text

  /** The modifiers in the order a normalised combo lists them. */
  const ModifierOrder: seq<string> := ["ctrl", "alt", "shift"]

  predicate IsModifier(k: string) {
    k == "ctrl" || k == "alt" || k == "shift"
  }

  /** Position of a modifier in `ModifierOrder`. */
  function Rank(m: string): nat {
    if m == "ctrl" then 0 else if m == "alt" then 1 else 2
  }

  /** `[p for p in parts if p]`. */
  function NonEmptyParts(parts: seq<string>): (r: seq<string>)
    ensures forall k :: k in r ==> k != "" && k in parts
    decreases |parts|
  {
    if parts == [] then []
    else (if parts[0] != "" then [parts[0]] else []) + NonEmptyParts(parts[1..])
  }

  /** `[m for m in order if m in keys]`. */
  function Present(order: seq<string>, keys: seq<string>): (r: seq<string>)
    ensures forall k :: k in r <==> k in order && k in keys
    decreases |order|
  {
    if order == [] then []
    else (if order[0] in keys then [order[0]] else []) + Present(order[1..], keys)
  }

  /** `[p for p in keys if p not in mods_order]`. */
  function Others(keys: seq<string>): (r: seq<string>)
    ensures forall k :: k in r ==> k in keys && !IsModifier(k)
    decreases |keys|
  {
    if keys == [] then []
    else (if !IsModifier(keys[0]) then [keys[0]] else []) + Others(keys[1..])
  }

  /** The pieces of the combo after removing spaces and lower-casing, empty ones dropped. */
  function RawKeys(combo: string): seq<string> {
    NonEmptyParts(Split(Lower(Replace(combo, " ", "")), '+'))
  }

  /** The modifiers present, in fixed order, then the other keys as they came. */
  function Arrange(keys: seq<string>): seq<string> {
    Present(ModifierOrder, keys) + Others(keys)
  }

  /** `_normalize_combo(combo)`. */
  function NormalizeCombo(combo: string): string {
    if combo == "" then "" else Join(Arrange(RawKeys(combo)), "+")
  }

  // ---------------------------------------------------------------------------
  // The shape of a normalised combo
  // ---------------------------------------------------------------------------

  /** One key of a normalised combo: non-empty, lower-case, no space and no `+`. */
  predicate IsKeyName(k: string) {
    k != "" && IsLowerCase(k) && ' ' !in k && '+' !in k
  }

  /** Ranks strictly increase along `ms`. */
  predicate Ascending(ms: seq<string>) {
    forall i, j :: 0 <= i < j < |ms| ==> Rank(ms[i]) < Rank(ms[j])
  }

  /**
   * Whatever stands before a modifier is a modifier of lower rank: the modifiers
   * form a prefix, each at most once and in `ModifierOrder`.
   */
  predicate ModifiersFirst(keys: seq<string>) {
    forall i, j :: 0 <= i < j < |keys| && IsModifier(keys[j]) ==>
      IsModifier(keys[i]) && Rank(keys[i]) < Rank(keys[j])
  }

  lemma AscendingTail(order: seq<string>)
    requires Ascending(order) && order != []
    ensures Ascending(order[1..])
    ensures forall k :: k in order[1..] ==> Rank(order[0]) < Rank(k)
  {
    var tail := order[1..];
    forall i, j | 0 <= i < j < |tail| ensures Rank(tail[i]) < Rank(tail[j]) {
      assert tail[i] == order[i + 1] && tail[j] == order[j + 1];
    }
    forall k | k in tail ensures Rank(order[0]) < Rank(k) {
      var i :| 0 <= i < |tail| && tail[i] == k;
      assert order[i + 1] == k;
    }
  }

  lemma AscendingCons(x: string, rest: seq<string>)
    requires Ascending(rest) && forall k :: k in rest ==> Rank(x) < Rank(k)
    ensures Ascending([x] + rest)
  {
    var r := [x] + rest;
    forall i, j | 0 <= i < j < |r| ensures Rank(r[i]) < Rank(r[j]) {
      assert r[j] == rest[j - 1];
      if i > 0 {
        assert r[i] == rest[i - 1];
      } else {
        assert rest[j - 1] in rest;
      }
    }
  }

  lemma {:induction false} PresentAscending(order: seq<string>, keys: seq<string>)
    requires Ascending(order)
    ensures Ascending(Present(order, keys))
    decreases |order|
  {
    if order != [] {
      AscendingTail(order);
      PresentAscending(order[1..], keys);
      var rest := Present(order[1..], keys);
      if order[0] in keys {
        AscendingCons(order[0], rest);
      }
    }
  }

  lemma {:induction false} PresentSameMembers(order: seq<string>, a: seq<string>, b: seq<string>)
    requires forall k :: k in order ==> (k in a <==> k in b)
    ensures Present(order, a) == Present(order, b)
    decreases |order|
  {
    if order != [] {
      assert forall k :: k in order[1..] ==> k in order;
      PresentSameMembers(order[1..], a, b);
    }
  }

  lemma {:induction false} OthersAppend(a: seq<string>, b: seq<string>)
    ensures Others(a + b) == Others(a) + Others(b)
    decreases |a|
  {
    if a == [] {
      assert a + b == b;
    } else {
      assert (a + b)[1..] == a[1..] + b;
      OthersAppend(a[1..], b);
    }
  }

  lemma {:induction false} OthersOfPlain(keys: seq<string>)
    requires forall k :: k in keys ==> !IsModifier(k)
    ensures Others(keys) == keys
    decreases |keys|
  {
    if keys != [] {
      assert forall k :: k in keys[1..] ==> k in keys;
      OthersOfPlain(keys[1..]);
    }
  }

  lemma {:induction false} OthersOfModifiers(keys: seq<string>)
    requires forall k :: k in keys ==> IsModifier(k)
    ensures Others(keys) == []
    decreases |keys|
  {
    if keys != [] {
      assert forall k :: k in keys[1..] ==> k in keys;
      OthersOfModifiers(keys[1..]);
    }
  }

  lemma {:induction false} NonEmptyPartsOfNonEmpty(parts: seq<string>)
    requires forall k :: k in parts ==> k != ""
    ensures NonEmptyParts(parts) == parts
    decreases |parts|
  {
    if parts != [] {
      assert parts[0] in parts;
      assert forall k :: k in parts[1..] ==> k in parts;
      NonEmptyPartsOfNonEmpty(parts[1..]);
    }
  }

  lemma ModifierOrderFacts()
    ensures forall k :: k in ModifierOrder <==> IsModifier(k)
    ensures Ascending(ModifierOrder)
  {
    assert "ctrl"[0] != "alt"[0] && "ctrl"[0] != "shift"[0] && "alt"[0] != "shift"[0];
    assert Rank("ctrl") == 0 && Rank("alt") == 1 && Rank("shift") == 2;
  }

  /** The arranged keys hold the same modifiers and the same other keys, in the same order. */
  lemma ArrangeKeeps(keys: seq<string>)
    ensures forall m :: IsModifier(m) ==> (m in Arrange(keys) <==> m in keys)
    ensures Others(Arrange(keys)) == Others(keys)
    ensures Present(ModifierOrder, Arrange(keys)) == Present(ModifierOrder, keys)
  {
    ModifierOrderFacts();
    var mods := Present(ModifierOrder, keys);
    OthersAppend(mods, Others(keys));
    OthersOfPlain(Others(keys));
    OthersOfModifiers(mods);
    PresentSameMembers(ModifierOrder, Arrange(keys), keys);
  }

  /** Arranging twice is arranging once. */
  lemma ArrangeIdempotent(keys: seq<string>)
    ensures Arrange(Arrange(keys)) == Arrange(keys)
  {
    ArrangeKeeps(keys);
  }

  lemma ArrangeModifiersFirst(keys: seq<string>)
    ensures ModifiersFirst(Arrange(keys))
  {
    ModifierOrderFacts();
    var mods := Present(ModifierOrder, keys);
    PresentAscending(ModifierOrder, keys);
    var r := Arrange(keys);
    forall i, j | 0 <= i < j < |r| && IsModifier(r[j]) ensures IsModifier(r[i]) && Rank(r[i]) < Rank(r[j]) {
      assert j < |mods|;
    }
  }

  lemma RawKeysAreKeyNames(combo: string)
    ensures forall k :: k in RawKeys(combo) ==> IsKeyName(k)
  {
    var s0 := Replace(combo, " ", "");
    ReplaceOneChar(combo, ' ', "");
    SubstCharRemoves(combo, ' ', "");
    var s1 := Lower(s0);
    LowerIsLowerCase(s0);
    assert ' ' !in s1 by {
      forall i | 0 <= i < |s1| ensures s1[i] != ' ' {
        assert s0[i] != ' ';
      }
    }
    SplitPiecesFrom(s1, '+');
    SplitPiecesAvoidSep(s1, '+');
    forall k | k in Split(s1, '+') ensures IsLowerCase(k) && ' ' !in k {
      forall i | 0 <= i < |k| ensures !('A' <= k[i] <= 'Z') && k[i] != ' ' {
        assert k[i] in s1;
      }
    }
  }

  lemma ArrangedKeyNames(keys: seq<string>)
    requires forall k :: k in keys ==> IsKeyName(k)
    ensures forall k :: k in Arrange(keys) ==> IsKeyName(k)
  {
    var mods := Present(ModifierOrder, keys);
    forall k | k in Arrange(keys) ensures IsKeyName(k) {
      if k !in mods {
        assert k in Others(keys);
      }
    }
  }

  /**
   * The normalised combo: "" for "", otherwise its `+` pieces are key names
   * (non-empty, lower-case, no space), modifiers come first, once each, in fixed
   * order, and the same modifiers and the same other keys, in their order and with
   * their repetitions, as the raw combo.
   */
  lemma NormalizeComboShape(combo: string)
    ensures combo == "" ==> NormalizeCombo(combo) == ""
    ensures ' ' !in NormalizeCombo(combo) && IsLowerCase(NormalizeCombo(combo))
    ensures NormalizeCombo(combo) == "" || Split(NormalizeCombo(combo), '+') == Arrange(RawKeys(combo))
    ensures forall k :: k in Arrange(RawKeys(combo)) ==> IsKeyName(k)
    ensures ModifiersFirst(Arrange(RawKeys(combo)))
    ensures forall m :: IsModifier(m) ==> (m in Arrange(RawKeys(combo)) <==> m in RawKeys(combo))
    ensures Others(Arrange(RawKeys(combo))) == Others(RawKeys(combo))
  {
    var raw := RawKeys(combo);
    var keys := Arrange(raw);
    RawKeysAreKeyNames(combo);
    ArrangedKeyNames(raw);
    ArrangeKeeps(raw);
    ArrangeModifiersFirst(raw);
    if combo != "" {
      JoinedKeyNames(keys);
    }
  }

  /** Key names joined with `+`: no space, lower case, and the pieces split back. */
  lemma JoinedKeyNames(keys: seq<string>)
    requires forall k :: k in keys ==> IsKeyName(k)
    ensures var j := Join(keys, "+");
      ' ' !in j && IsLowerCase(j) && (keys == [] || Split(j, '+') == keys)
  {
    assert "+" == ['+'];
    assert ' ' !in "+" && IsLowerCase("+");
    JoinAvoids(keys, "+", ' ');
    JoinLower(keys, "+");
    if keys != [] {
      SplitJoin(keys, '+');
    }
  }

  /** Normalising a normalised combo changes nothing. */
  lemma NormalizeComboIdempotent(combo: string)
    ensures NormalizeCombo(NormalizeCombo(combo)) == NormalizeCombo(combo)
  {
    var r := NormalizeCombo(combo);
    if r != "" {
      NormalizeComboShape(combo);
      var keys := Arrange(RawKeys(combo));
      ReplaceOneChar(r, ' ', "");
      SubstCharAbsent(r, ' ', "");
      LowerIsLowerCase(r);
      NonEmptyPartsOfNonEmpty(keys);
      assert RawKeys(r) == keys;
      ArrangeIdempotent(RawKeys(combo));
    }
  }
}
