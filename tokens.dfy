/**
 * The `%token%` substituter that turns one line template into rich text: the
 * template is HTML-escaped, quest fields and globals are merged (globals win), and
 * each merged item in turn replaces its `%key%` by its escaped, optionally
 * coloured value.  The whole line may be wrapped in a colour span.
 */
module Tokens {
  import opened Wrappers
  import opened Text
  import opened Values
  import opened Html
  import opened TimeColor

  /** The parts of the widget configuration the substituter reads. */
  datatype TokenStyle = TokenStyle(
    tokenColors: Dict<string>,         // token_colors
    timeColors: ColorRules,            // time_remaining_colors
    sectorColors: Dict<Dict<string>>,  // sector_token_colors: sector -> {"true": c, "false": c}
    filterSectors: Dict<bool>          // filter.sectors, read when no active-sector set is given
  )

  /**
   * What one call sees besides the template and the items: the style, the set or
   * list under the `active_sectors` global (`None` when it is neither), and the
   * remaining seconds used by the dynamic colour.
   */
  datatype TokenContext = TokenContext(style: TokenStyle, activeSectors: Option<set<string>>, remaining: Option<int>)

  /** A colour is used when it is present and not empty (Python truthiness). */
  predicate HasColor(c: Option<string>) {
    c.Some? && c.value != ""
  }

  /** `"" if val is None else str(val)`. */
  function RawText(v: Value): string {
    if v.Null? then "" else PyStr(v)
  }

  /** Whether a sector counts as active for its colour. */
  function SectorIsActive(ctx: TokenContext, code: string): bool {
    match ctx.activeSectors
    case Some(active) => code in active
    case None => GetOr(ctx.style.filterSectors, code, false)
  }

  /** The colour of the token `key` whose value reads `raw`. */
  function TokenColor(ctx: TokenContext, key: string, raw: string): Option<string> {
    var style := ctx.style;
    var base := Get(style.tokenColors, key);
    var c1 := if base == Some("dynamic") && key == "time_remaining"
              then Some(GetTimeColor(ctx.remaining, style.timeColors)) else base;
    if key == "sector" then
      var code := Upper(raw);
      if code != "" && HasKey(style.sectorColors, code) then
        var entry := GetOr(style.sectorColors, code, []);
        var c2 := Get(entry, if SectorIsActive(ctx, code) then "true" else "false");
        if HasColor(c2) then c2 else Get(style.tokenColors, "sector")
      else c1
    else c1
  }

  /** `<span style="color:C">text</span>`. */
  function Span(color: string, text: string): string {
    "<span style=\"color:" + color + "\">" + text + "</span>"
  }

  /** The text that replaces `%key%`. */
  function TokenText(ctx: TokenContext, key: string, v: Value): string {
    var raw := RawText(v);
    var safe := SafeText(raw);
    var color := TokenColor(ctx, key, raw);
    if HasColor(color) then Span(color.value, safe) else safe
  }

  function Token(key: string): (t: string)
    ensures |t| >= 2
  {
    "%" + key + "%"
  }

  /** `combined = {}; combined.update(quest); combined.update(globals)`. */
  function Combined(quest: Quest, globals: Dict<Value>): Dict<Value> {
    Update(Update([], quest), globals)
  }

  /** The replacements of the items, in order, applied to `out`. */
  function SubstituteAll(out: string, items: Dict<Value>, ctx: TokenContext): string
    decreases |items|
  {
    if items == [] then out
    else SubstituteAll(Replace(out, Token(items[0].0), TokenText(ctx, items[0].0, items[0].1)), items[1..], ctx)
  }

  function WrapLine(out: string, lineColor: Option<string>): string {
    if HasColor(lineColor) then Span(lineColor.value, out) else out
  }

  /** What `replace_tokens_html` returns. */
  function LineHtml(template: string, quest: Quest, globals: Dict<Value>, ctx: TokenContext, lineColor: Option<string>): string {
    WrapLine(SubstituteAll(Escape(template), Combined(quest, globals), ctx), lineColor)
  }

  /** `replace_tokens_html(line_template, quest, globals_dict, cfg, remaining, line_color)`. */
  method ReplaceTokensHtml(template: string, quest: Quest, globals: Dict<Value>, ctx: TokenContext, lineColor: Option<string>)
    returns (html: string)
    ensures html == LineHtml(template, quest, globals, ctx, lineColor)
  {
    var combined := Combined(quest, globals);
    var out := Escape(template);
    var i := 0;
    while i < |combined|
      invariant 0 <= i <= |combined|
      invariant SubstituteAll(out, combined[i..], ctx) == SubstituteAll(Escape(template), combined, ctx)
    {
      var key := combined[i].0;
      var val := combined[i].1;
      assert combined[i..][1..] == combined[i + 1..];
      out := Replace(out, "%" + key + "%", TokenText(ctx, key, val));
      i := i + 1;
    }
    if HasColor(lineColor) {
      out := "<span style=\"color:" + lineColor.value + "\">" + out + "</span>";
    }
    html := out;
  }

  // ---------------------------------------------------------------------------
  // Properties
  // ---------------------------------------------------------------------------

  /** A global shadows a quest field of the same key; other keys keep the quest's value. */
  lemma GlobalsWin(quest: Quest, globals: Dict<Value>, k: string)
    requires UniqueKeys(quest) && UniqueKeys(globals)
    ensures Get(Combined(quest, globals), k) == if HasKey(globals, k) then Get(globals, k) else Get(quest, k)
  {
    GetUpdate(Update([], quest), globals, k);
    GetUpdate([], quest, k);
  }

  /** Without any `%key%` of the merged items in the escaped template, only escaping and wrapping happen. */
  lemma {:induction false} NoTokensNoChange(out: string, items: Dict<Value>, ctx: TokenContext)
    requires forall i :: 0 <= i < |items| ==> !Occurs(Token(items[i].0), out)
    ensures SubstituteAll(out, items, ctx) == out
    decreases |items|
  {
    if items != [] {
      ReplaceAbsent(out, Token(items[0].0), TokenText(ctx, items[0].0, items[0].1));
      forall i | 0 <= i < |items[1..]| ensures !Occurs(Token(items[1..][i].0), out) {
        assert items[1..][i] == items[i + 1];
      }
      NoTokensNoChange(out, items[1..], ctx);
    }
  }

  /**
   * When no field's token occurs in the escaped template, the line is the
   * escaped template, wrapped in the line colour when there is one.
   */
  lemma UnmatchedTokensStay(template: string, quest: Quest, globals: Dict<Value>, ctx: TokenContext, lineColor: Option<string>)
    requires var items := Combined(quest, globals);
      forall i :: 0 <= i < |items| ==> !Occurs(Token(items[i].0), Escape(template))
    ensures LineHtml(template, quest, globals, ctx, lineColor) == WrapLine(Escape(template), lineColor)
  {
    NoTokensNoChange(Escape(template), Combined(quest, globals), ctx);
  }

  /** No other token occurs inside `%k%` when `k` holds no `%`. */
  lemma OnlyItsOwnToken(k: string, k': string)
    requires '%' !in k && k' != k
    ensures !Occurs(Token(k'), Token(k))
  {
    var t, p := Token(k), Token(k');
    forall i | 0 <= i <= |t| ensures !OccursAt(p, t, i) {
      if i + |p| <= |t| {
        var w := t[i..i + |p|];
        if i > 0 {
          assert w[0] == t[i] == k[i - 1];
          assert w[0] != p[0];
        } else if |p| < |t| {
          assert w[|p| - 1] == t[|p| - 1] == k[|p| - 2];
          assert w[|p| - 1] != p[|p| - 1];
        } else {
          assert t[1..|t| - 1] == k && p[1..|p| - 1] == k';
          assert w == t;
        }
      }
    }
  }

  /** A text without `%` contains no token. */
  lemma NoPercentNoToken(s: string, k: string)
    requires '%' !in s
    ensures !Occurs(Token(k), s)
  {
    forall i | 0 <= i <= |s| ensures !OccursAt(Token(k), s, i) {
      if i + |Token(k)| <= |s| {
        assert s[i..i + |Token(k)|][0] == s[i] != '%';
      }
    }
  }

  lemma {:induction false} SubstituteSingle(items: Dict<Value>, k: string, ctx: TokenContext)
    requires UniqueKeys(items) && '%' !in k
    requires HasKey(items, k) ==> '%' !in TokenText(ctx, k, Get(items, k).value)
    ensures SubstituteAll(Token(k), items, ctx) ==
      if HasKey(items, k) then TokenText(ctx, k, Get(items, k).value) else Token(k)
    decreases |items|
  {
    if items != [] {
      var rest := items[1..];
      assert UniqueKeys(rest) by {
        forall i, j | 0 <= i < j < |rest| ensures rest[i].0 != rest[j].0 {
          assert rest[i] == items[i + 1] && rest[j] == items[j + 1];
        }
      }
      assert Keys(items) == [items[0].0] + Keys(rest);
      if items[0].0 == k {
        var t := TokenText(ctx, k, items[0].1);
        var tk := Token(k);
        assert tk[..|tk|] == tk && tk[|tk|..] == [];
        assert Replace(tk, tk, t) == t + Replace([], tk, t);
        assert Replace([], tk, t) == [];
        assert t + [] == t;
        assert Replace(tk, tk, t) == t;
        forall i | 0 <= i < |rest| ensures !Occurs(Token(rest[i].0), t) {
          NoPercentNoToken(t, rest[i].0);
        }
        NoTokensNoChange(t, rest, ctx);
      } else {
        OnlyItsOwnToken(k, items[0].0);
        ReplaceAbsent(Token(k), Token(items[0].0), TokenText(ctx, items[0].0, items[0].1));
        SubstituteSingle(rest, k, ctx);
      }
    }
  }

  /** `%k%` holds none of the characters `html.escape` rewrites when `k` holds none. */
  lemma TokenPlain(k: string)
    requires forall i :: 0 <= i < |k| ==> !IsEscapedChar(k[i])
    ensures forall i :: 0 <= i < |Token(k)| ==> !IsEscapedChar(Token(k)[i])
  {
    var t := Token(k);
    forall i | 0 <= i < |t| ensures !IsEscapedChar(t[i]) {
      if i == 0 || i == |t| - 1 {
        assert t[i] == '%';
      } else {
        assert t[i] == k[i - 1];
      }
    }
  }

  /**
   * A line that is just `%k%` shows the text of `k`'s merged value: the escaped
   * value, in a span when a colour applies, and the whole line wrapped when
   * `line_color` is set.
   */
  lemma SingleTokenLine(k: string, quest: Quest, globals: Dict<Value>, ctx: TokenContext, lineColor: Option<string>)
    requires '%' !in k && forall i :: 0 <= i < |k| ==> !IsEscapedChar(k[i])
    requires HasKey(Combined(quest, globals), k)
    requires '%' !in TokenText(ctx, k, Get(Combined(quest, globals), k).value)
    ensures LineHtml(Token(k), quest, globals, ctx, lineColor) ==
      WrapLine(TokenText(ctx, k, Get(Combined(quest, globals), k).value), lineColor)
  {
    var t := Token(k);
    TokenPlain(k);
    EscapePlain(t);
    UpdateKeepsUnique([], quest);
    UpdateKeepsUnique(Update([], quest), globals);
    SubstituteSingle(Combined(quest, globals), k, ctx);
  }

  /** A `dynamic` time colour comes from the ladder applied to the remaining seconds. */
  lemma DynamicTimeColor(ctx: TokenContext, raw: string)
    requires Get(ctx.style.tokenColors, "time_remaining") == Some("dynamic")
    ensures TokenColor(ctx, "time_remaining", raw) == Some(GetTimeColor(ctx.remaining, ctx.style.timeColors))
  {
  }

  /** Tokens other than `sector` and a dynamic `time_remaining` take their configured colour. */
  lemma StaticTokenColor(ctx: TokenContext, key: string, raw: string)
    requires key != "sector"
    requires key != "time_remaining" || Get(ctx.style.tokenColors, key) != Some("dynamic")
    ensures TokenColor(ctx, key, raw) == Get(ctx.style.tokenColors, key)
  {
  }

  /**
   * A sector listed in `sector_token_colors` takes its "true" or "false" colour by
   * membership in the active set, and the plain `sector` colour when that one is
   * missing or empty.
   */
  lemma SectorColorByMembership(ctx: TokenContext, raw: string, active: set<string>)
    requires ctx.activeSectors == Some(active)
    requires Upper(raw) != "" && HasKey(ctx.style.sectorColors, Upper(raw))
    ensures var entry := Get(ctx.style.sectorColors, Upper(raw)).value;
      var c := Get(entry, if Upper(raw) in active then "true" else "false");
      TokenColor(ctx, "sector", raw) == if HasColor(c) then c else Get(ctx.style.tokenColors, "sector")
  {
  }

  /** A sector not listed in `sector_token_colors` is coloured like any other token. */
  lemma UnlistedSectorColor(ctx: TokenContext, raw: string)
    requires !HasKey(ctx.style.sectorColors, Upper(raw))
    ensures TokenColor(ctx, "sector", raw) == Get(ctx.style.tokenColors, "sector")
  {
  }

  /** The inserted text is the escaped value, inside a span exactly when a colour applies. */
  lemma TokenTextShape(ctx: TokenContext, key: string, v: Value)
    ensures var safe := SafeText(RawText(v));
      var color := TokenColor(ctx, key, RawText(v));
      TokenText(ctx, key, v) == (if HasColor(color) then Span(color.value, safe) else safe)
    ensures v.Null? ==> SafeText(RawText(v)) == ""
    ensures Unescape(SafeText(RawText(v))) == RawText(v)
  {
    SafeTextProperties(RawText(v));
  }
}
