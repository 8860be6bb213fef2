/**
 * Python's `html.escape` (with `quote=True`) as the five sequential replacements it
 * performs, its character-by-character reading, and a decoder that undoes it.
 * `SafeText` is what the token substituter inserts for a value: the escaped text
 * with every space turned into `&nbsp;`.
 */
module Html {
  import opened Text

  /** `html.escape(s)`: `&` first, then `<`, `>`, `"` and `'`. */
  function Escape(s: string): string {
    var s1 := Replace(s, "&", "&amp;");
    var s2 := Replace(s1, "<", "&lt;");
    var s3 := Replace(s2, ">", "&gt;");
    var s4 := Replace(s3, "\"", "&quot;");
    Replace(s4, "'", "&#x27;")
  }

  /** What one character becomes under `html.escape`. */
  function EscapeChar(c: char): string {
    if c == '&' then "&amp;"
    else if c == '<' then "&lt;"
    else if c == '>' then "&gt;"
    else if c == '"' then "&quot;"
    else if c == '\'' then "&#x27;"
    else [c]
  }

  function EscapeChars(s: string): string
    decreases |s|
  {
    if s == [] then [] else EscapeChar(s[0]) + EscapeChars(s[1..])
  }

  /** The five replacements as one-character substitutions, in the same order. */
  function EscapeStages(s: string): string {
    SubstChar(SubstChar(SubstChar(SubstChar(SubstChar(s, '&', "&amp;"), '<', "&lt;"), '>', "&gt;"), '"', "&quot;"), '\'', "&#x27;")
  }

  lemma EscapeIsStages(s: string)
    ensures Escape(s) == EscapeStages(s)
  {
    var s1 := SubstChar(s, '&', "&amp;");
    var s2 := SubstChar(s1, '<', "&lt;");
    var s3 := SubstChar(s2, '>', "&gt;");
    var s4 := SubstChar(s3, '"', "&quot;");
    ReplaceOneChar(s, '&', "&amp;");
    ReplaceOneChar(s1, '<', "&lt;");
    ReplaceOneChar(s2, '>', "&gt;");
    ReplaceOneChar(s3, '"', "&quot;");
    ReplaceOneChar(s4, '\'', "&#x27;");
  }

  lemma EscapeStagesAppend(a: string, b: string)
    ensures EscapeStages(a + b) == EscapeStages(a) + EscapeStages(b)
  {
    var a1, b1 := SubstChar(a, '&', "&amp;"), SubstChar(b, '&', "&amp;");
    SubstCharAppend(a, b, '&', "&amp;");
    var a2, b2 := SubstChar(a1, '<', "&lt;"), SubstChar(b1, '<', "&lt;");
    SubstCharAppend(a1, b1, '<', "&lt;");
    var a3, b3 := SubstChar(a2, '>', "&gt;"), SubstChar(b2, '>', "&gt;");
    SubstCharAppend(a2, b2, '>', "&gt;");
    var a4, b4 := SubstChar(a3, '"', "&quot;"), SubstChar(b3, '"', "&quot;");
    SubstCharAppend(a3, b3, '"', "&quot;");
    SubstCharAppend(a4, b4, '\'', "&#x27;");
  }

  lemma SubstCharOne(c: char, d: char, rep: string)
    ensures SubstChar([c], d, rep) == if c == d then rep else [c]
  {
    assert [c][1..] == [];
  }

  /** An entity that later stages leave alone. */
  lemma StagesKeep(e: string)
    requires '<' !in e && '>' !in e && '"' !in e && '\'' !in e
    ensures SubstChar(e, '<', "&lt;") == e && SubstChar(e, '>', "&gt;") == e
    ensures SubstChar(e, '"', "&quot;") == e && SubstChar(e, '\'', "&#x27;") == e
  {
    SubstCharAbsent(e, '<', "&lt;");
    SubstCharAbsent(e, '>', "&gt;");
    SubstCharAbsent(e, '"', "&quot;");
    SubstCharAbsent(e, '\'', "&#x27;");
  }

  /** On a single character the five stages give `EscapeChar`. */
  lemma EscapeStagesOne(c: char)
    ensures EscapeStages([c]) == EscapeChar(c)
  {
    SubstCharOne(c, '&', "&amp;");
    if c == '&' {
      StagesKeep("&amp;");
    } else {
      SubstCharOne(c, '<', "&lt;");
      if c == '<' {
        StagesKeep("&lt;");
      } else {
        SubstCharOne(c, '>', "&gt;");
        if c == '>' {
          StagesKeep("&gt;");
        } else {
          SubstCharOne(c, '"', "&quot;");
          if c == '"' {
            StagesKeep("&quot;");
          } else {
            SubstCharOne(c, '\'', "&#x27;");
          }
        }
      }
    }
  }

  /** `html.escape` works character by character: its five passes never interfere. */
  lemma {:induction false} EscapeIsPerChar(s: string)
    ensures Escape(s) == EscapeChars(s)
    decreases |s|
  {
    EscapeIsStages(s);
    if s != [] {
      EscapeIsPerChar(s[1..]);
      EscapeIsStages(s[1..]);
      assert s == [s[0]] + s[1..];
      EscapeStagesAppend([s[0]], s[1..]);
      EscapeStagesOne(s[0]);
    }
  }

  /** The characters `html.escape` rewrites. */
  predicate IsEscapedChar(c: char) {
    c == '&' || c == '<' || c == '>' || c == '"' || c == '\''
  }

  /** Text without any of the five characters is left as it is. */
  lemma {:induction false} EscapePlain(s: string)
    requires forall i :: 0 <= i < |s| ==> !IsEscapedChar(s[i])
    ensures Escape(s) == s
  {
    EscapeIsPerChar(s);
    EscapeCharsPlain(s);
  }

  lemma {:induction false} EscapeCharsPlain(s: string)
    requires forall i :: 0 <= i < |s| ==> !IsEscapedChar(s[i])
    ensures EscapeChars(s) == s
    decreases |s|
  {
    if s != [] {
      EscapeCharsPlain(s[1..]);
      assert [s[0]] + s[1..] == s;
    }
  }

  /** The characters markup is made of. */
  predicate IsMarkupChar(c: char) {
    c == '<' || c == '>' || c == '"' || c == '\''
  }

  /** Decodes the five entities `html.escape` produces and `&nbsp;`. */
  function Unescape(s: string): string
    decreases |s|
  {
    if s == [] then []
    else if StartsWith(s, "&amp;") then "&" + Unescape(s[5..])
    else if StartsWith(s, "&lt;") then "<" + Unescape(s[4..])
    else if StartsWith(s, "&gt;") then ">" + Unescape(s[4..])
    else if StartsWith(s, "&quot;") then "\"" + Unescape(s[6..])
    else if StartsWith(s, "&#x27;") then "'" + Unescape(s[6..])
    else if StartsWith(s, "&nbsp;") then " " + Unescape(s[6..])
    else [s[0]] + Unescape(s[1..])
  }

  /** Two texts that differ at position `i` do not start one another. */
  lemma DiffersAt(s: string, p: string, i: nat)
    requires i < |s| && i < |p| && s[i] != p[i]
    ensures !StartsWith(s, p)
  {
    if |p| <= |s| {
      assert s[..|p|][i] == s[i];
    }
  }

  lemma UnescapeAmp(rest: string)
    ensures Unescape("&amp;" + rest) == ['&'] + Unescape(rest)
  {
    var s := "&amp;" + rest;
    assert s[..5] == "&amp;" && s[5..] == rest;
  }

  lemma UnescapeLt(rest: string)
    ensures Unescape("&lt;" + rest) == ['<'] + Unescape(rest)
  {
    var s := "&lt;" + rest;
    assert s[..4] == "&lt;" && s[4..] == rest;
    DiffersAt(s, "&amp;", 1);
  }

  lemma UnescapeGt(rest: string)
    ensures Unescape("&gt;" + rest) == ['>'] + Unescape(rest)
  {
    var s := "&gt;" + rest;
    assert s[..4] == "&gt;" && s[4..] == rest;
    DiffersAt(s, "&amp;", 1);
    DiffersAt(s, "&lt;", 1);
  }

  lemma UnescapeQuot(rest: string)
    ensures Unescape("&quot;" + rest) == ['"'] + Unescape(rest)
  {
    var s := "&quot;" + rest;
    assert s[..6] == "&quot;" && s[6..] == rest;
    DiffersAt(s, "&amp;", 1);
    DiffersAt(s, "&lt;", 1);
    DiffersAt(s, "&gt;", 1);
  }

  lemma UnescapeApos(rest: string)
    ensures Unescape("&#x27;" + rest) == ['\''] + Unescape(rest)
  {
    var s := "&#x27;" + rest;
    assert s[..6] == "&#x27;" && s[6..] == rest;
    DiffersAt(s, "&amp;", 1);
    DiffersAt(s, "&lt;", 1);
    DiffersAt(s, "&gt;", 1);
    DiffersAt(s, "&quot;", 1);
  }

  lemma UnescapeNbsp(rest: string)
    ensures Unescape("&nbsp;" + rest) == [' '] + Unescape(rest)
  {
    var s := "&nbsp;" + rest;
    assert s[..6] == "&nbsp;" && s[6..] == rest;
    DiffersAt(s, "&amp;", 1);
    DiffersAt(s, "&lt;", 1);
    DiffersAt(s, "&gt;", 1);
    DiffersAt(s, "&quot;", 1);
    DiffersAt(s, "&#x27;", 1);
  }

  /** A character other than `&` decodes to itself. */
  lemma UnescapePlain(c: char, rest: string)
    requires c != '&'
    ensures Unescape([c] + rest) == [c] + Unescape(rest)
  {
    var s := [c] + rest;
    assert s[1..] == rest;
    DiffersAt(s, "&amp;", 0);
    DiffersAt(s, "&lt;", 0);
    DiffersAt(s, "&gt;", 0);
    DiffersAt(s, "&quot;", 0);
    DiffersAt(s, "&#x27;", 0);
    DiffersAt(s, "&nbsp;", 0);
  }

  lemma UnescapeEntity(e: string, c: char, rest: string)
    requires e == EscapeChar(c) || (c == ' ' && e == "&nbsp;")
    ensures Unescape(e + rest) == [c] + Unescape(rest)
  {
    if c == '&' {
      UnescapeAmp(rest);
    } else if c == '<' {
      UnescapeLt(rest);
    } else if c == '>' {
      UnescapeGt(rest);
    } else if c == '"' {
      UnescapeQuot(rest);
    } else if c == '\'' {
      UnescapeApos(rest);
    } else if e == "&nbsp;" {
      UnescapeNbsp(rest);
    } else {
      UnescapePlain(c, rest);
    }
  }

  /** The escaped text decodes back to the original: escaping loses nothing. */
  lemma {:induction false} EscapeRoundTrip(s: string)
    ensures Unescape(Escape(s)) == s
  {
    EscapeIsPerChar(s);
    EscapeCharsRoundTrip(s);
  }

  lemma {:induction false} EscapeCharsRoundTrip(s: string)
    ensures Unescape(EscapeChars(s)) == s
    decreases |s|
  {
    if s != [] {
      EscapeCharsRoundTrip(s[1..]);
      UnescapeEntity(EscapeChar(s[0]), s[0], EscapeChars(s[1..]));
    }
  }

  /** Escaped text holds no `<`, `>`, `"` or `'`: data cannot open a tag or end an attribute. */
  lemma {:induction false} EscapeHasNoMarkup(s: string)
    ensures forall i :: 0 <= i < |Escape(s)| ==> !IsMarkupChar(Escape(s)[i])
  {
    EscapeIsPerChar(s);
    EscapeCharsNoMarkup(s);
  }

  lemma {:induction false} EscapeCharsNoMarkup(s: string)
    ensures forall i :: 0 <= i < |EscapeChars(s)| ==> !IsMarkupChar(EscapeChars(s)[i])
    decreases |s|
  {
    if s != [] {
      EscapeCharsNoMarkup(s[1..]);
      var e, r := EscapeChar(s[0]), EscapeChars(s[1..]);
      forall i | 0 <= i < |e + r| ensures !IsMarkupChar((e + r)[i]) {
        if i >= |e| { assert (e + r)[i] == r[i - |e|]; }
      }
    }
  }

  // ---------------------------------------------------------------------------
  // The form a token value takes in a rendered line
  // ---------------------------------------------------------------------------

  /** `html.escape(raw).replace(" ", "&nbsp;")`. */
  function SafeText(raw: string): string {
    Replace(Escape(raw), " ", "&nbsp;")
  }

  function SafeChar(c: char): string {
    if c == ' ' then "&nbsp;" else EscapeChar(c)
  }

  function SafeChars(s: string): string
    decreases |s|
  {
    if s == [] then [] else SafeChar(s[0]) + SafeChars(s[1..])
  }

  lemma SubstSpaceOne(c: char)
    ensures SubstChar(EscapeChar(c), ' ', "&nbsp;") == SafeChar(c)
  {
    if c == ' ' {
      SubstCharOne(c, ' ', "&nbsp;");
    } else {
      assert ' ' !in EscapeChar(c);
      SubstCharAbsent(EscapeChar(c), ' ', "&nbsp;");
    }
  }

  lemma {:induction false} SubstSpaceOfEscapeChars(s: string)
    ensures SubstChar(EscapeChars(s), ' ', "&nbsp;") == SafeChars(s)
    decreases |s|
  {
    if s != [] {
      SubstSpaceOfEscapeChars(s[1..]);
      SubstCharAppend(EscapeChar(s[0]), EscapeChars(s[1..]), ' ', "&nbsp;");
      SubstSpaceOne(s[0]);
    }
  }

  lemma SafeTextIsPerChar(raw: string)
    ensures SafeText(raw) == SafeChars(raw)
  {
    EscapeIsPerChar(raw);
    ReplaceOneChar(Escape(raw), ' ', "&nbsp;");
    SubstSpaceOfEscapeChars(raw);
  }

  /**
   * The inserted text of a value holds no space and no markup character, and it
   * decodes back to the value.
   */
  lemma SafeTextProperties(raw: string)
    ensures ' ' !in SafeText(raw)
    ensures forall i :: 0 <= i < |SafeText(raw)| ==> !IsMarkupChar(SafeText(raw)[i])
    ensures Unescape(SafeText(raw)) == raw
  {
    SafeTextIsPerChar(raw);
    SafeCharsClean(raw);
    SafeCharsRoundTrip(raw);
  }

  lemma SafeCharClean(c: char)
    ensures forall i :: 0 <= i < |SafeChar(c)| ==> SafeChar(c)[i] != ' ' && !IsMarkupChar(SafeChar(c)[i])
  {
  }

  lemma {:induction false} SafeCharsClean(s: string)
    ensures forall i :: 0 <= i < |SafeChars(s)| ==> SafeChars(s)[i] != ' ' && !IsMarkupChar(SafeChars(s)[i])
    decreases |s|
  {
    if s != [] {
      SafeCharsClean(s[1..]);
      SafeCharClean(s[0]);
      var e, r := SafeChar(s[0]), SafeChars(s[1..]);
      assert SafeChars(s) == e + r;
      forall i | 0 <= i < |e + r| ensures (e + r)[i] != ' ' && !IsMarkupChar((e + r)[i]) {
        if i < |e| {
          assert (e + r)[i] == e[i];
        } else {
          assert (e + r)[i] == r[i - |e|];
        }
      }
    }
  }

  lemma {:induction false} SafeCharsRoundTrip(s: string)
    ensures Unescape(SafeChars(s)) == s
    decreases |s|
  {
    if s != [] {
      SafeCharsRoundTrip(s[1..]);
      UnescapeEntity(SafeChar(s[0]), s[0], SafeChars(s[1..]));
      assert s == [s[0]] + s[1..];
    }
  }
}
