/**
 * The time-remaining formatter: a number of seconds split into days, hours,
 * minutes and seconds, each zero-padded to two digits, filled into a template
 * such as `%dd %hh %mm %ss` by eight successive `str.replace` calls.
 */
module Duration {
  import opened Wrappers
  import opened Text

  const DefaultFormat := "%dd %hh %mm %ss"

  /** `f"{n:02}"`: at least two digits, zero-padded on the left. */
  function Pad2(n: nat): (r: string)
    ensures |r| >= 2
    ensures forall i :: 0 <= i < |r| ==> IsDigit(r[i])
  {
    if n < 10 then "0" + Digits(n) else Digits(n)
  }

  /** Days, hours, minutes and seconds of a (clamped) number of seconds. */
  datatype Parts = Parts(days: nat, hours: nat, minutes: nat, secs: nat)

  /** The split of `max(seconds, 0)` into days, hours, minutes and seconds. */
  function Split(seconds: int): (p: Parts)
    ensures p.days * 86400 + p.hours * 3600 + p.minutes * 60 + p.secs == if seconds < 0 then 0 else seconds
    ensures p.hours < 24 && p.minutes < 60 && p.secs < 60
  {
    var s := if seconds < 0 then 0 else seconds;
    SplitSum(s);
    Parts(s / 86400, (s % 86400) / 3600, (s % 3600) / 60, s % 60)
  }

  /** Whole days leave the hours-and-below remainder unchanged. */
  lemma DropDays(s: nat)
    ensures (s % 86400) % 3600 == s % 3600 && (s % 86400) / 3600 < 24
  {
    var k := s / 3600 - 24 * (s / 86400) - (s % 86400) / 3600;
    assert 3600 * k == (s % 86400) % 3600 - s % 3600;
  }

  /** Whole hours leave the minutes-and-below remainder unchanged. */
  lemma DropHours(s: nat)
    ensures (s % 3600) % 60 == s % 60
  {
    var k := s / 60 - 60 * (s / 3600) - (s % 3600) / 60;
    assert 60 * k == (s % 3600) % 60 - s % 60;
  }

  lemma SplitSum(s: nat)
    ensures (s / 86400) * 86400 + ((s % 86400) / 3600) * 3600 + ((s % 3600) / 60) * 60 + s % 60 == s
    ensures (s % 86400) / 3600 < 24
  {
    DropDays(s);
    DropHours(s);
  }

  /** `format_time_remaining(seconds, fmt)`; `None` is Python's `None`. */
  function FormatTimeRemaining(seconds: Option<int>, fmt: string): string {
    match seconds
    case None => "N/A"
    case Some(n) =>
      var p := Split(n);
      Fill(fmt, Pad2(p.days), Pad2(p.hours), Pad2(p.minutes), Pad2(p.secs))
  }

  /** The eight replacements of the padded fields into `fmt`: long tokens first. */
  function Fill(fmt: string, d: string, h: string, m: string, s: string): string {
    FillShort(FillLong(fmt, d, h, m, s), d, h, m, s)
  }

  /** `%dd`, `%hh`, `%mm`, `%ss`: the field followed by its unit letter. */
  function FillLong(fmt: string, d: string, h: string, m: string, s: string): string {
    var f1 := Replace(fmt, "%dd", d + "d");
    var f2 := Replace(f1, "%hh", h + "h");
    var f3 := Replace(f2, "%mm", m + "m");
    Replace(f3, "%ss", s + "s")
  }

  /** `%d`, `%h`, `%m`, `%s`: the bare field. */
  function FillShort(fmt: string, d: string, h: string, m: string, s: string): string {
    var f5 := Replace(fmt, "%d", d);
    var f6 := Replace(f5, "%h", h);
    var f7 := Replace(f6, "%m", m);
    Replace(f7, "%s", s)
  }

  // ---------------------------------------------------------------------------
  // Properties
  // ---------------------------------------------------------------------------

  lemma {:induction false} DigitsValueLeadingZero(s: string)
    requires forall i :: 0 <= i < |s| ==> IsDigit(s[i])
    ensures DigitsValue("0" + s) == DigitsValue(s)
    decreases |s|
  {
    if s != [] {
      var t := "0" + s;
      assert t[..|t| - 1] == "0" + s[..|s| - 1];
      DigitsValueLeadingZero(s[..|s| - 1]);
    }
  }

  /** A padded field reads back as the number it shows. */
  lemma Pad2RoundTrip(n: nat)
    ensures ParseInt(Pad2(n)) == Some(n)
  {
    DigitsRoundTrip(n);
    var r := Pad2(n);
    DropUnderscoresOfDigits(r);
    StripOfNonSpaceEnds(r);
    if n < 10 {
      DigitsValueLeadingZero(Digits(n));
    }
  }

  /** Negative remaining time shows as zero. */
  lemma NegativeShowsZero(seconds: int, fmt: string)
    requires seconds < 0
    ensures FormatTimeRemaining(Some(seconds), fmt) == FormatTimeRemaining(Some(0), fmt)
  {
  }

  /** The text a field contributes holds no `%`, so later replacements cannot touch it. */
  lemma Pad2NoPercent(n: nat)
    ensures '%' !in Pad2(n)
  {
  }

  lemma ReplaceNoPercent(s: string, pat: string, rep: string)
    requires |pat| > 0 && pat[0] == '%' && '%' !in s
    ensures Replace(s, pat, rep) == s
  {
    ReplaceSkipsPrefix(s, [], pat, rep);
    assert s + [] == s;
  }

  /** A template without `%` is shown as it is. */
  lemma PlainTemplate(seconds: int, fmt: string)
    requires '%' !in fmt
    ensures FormatTimeRemaining(Some(seconds), fmt) == fmt
  {
    var p := Split(seconds);
    FillPlain(fmt, Pad2(p.days), Pad2(p.hours), Pad2(p.minutes), Pad2(p.secs));
  }

  lemma FillPlain(fmt: string, d: string, h: string, m: string, s: string)
    requires '%' !in fmt
    ensures FillLong(fmt, d, h, m, s) == fmt && FillShort(fmt, d, h, m, s) == fmt
    ensures Fill(fmt, d, h, m, s) == fmt
  {
    ReplaceNoPercent(fmt, "%dd", d + "d");
    ReplaceNoPercent(fmt, "%hh", h + "h");
    ReplaceNoPercent(fmt, "%mm", m + "m");
    ReplaceNoPercent(fmt, "%ss", s + "s");
    ReplaceNoPercent(fmt, "%d", d);
    ReplaceNoPercent(fmt, "%h", h);
    ReplaceNoPercent(fmt, "%m", m);
    ReplaceNoPercent(fmt, "%s", s);
  }

  /** Replacing the one occurrence of a token that follows `%`-free text. */
  lemma ReplaceToken(pre: string, tok: string, tail: string, rep: string)
    requires |tok| > 0 && tok[0] == '%' && '%' !in pre
    requires Replace(tail, tok, rep) == tail
    ensures Replace(pre + tok + tail, tok, rep) == pre + rep + tail
  {
    assert pre + tok + tail == pre + (tok + tail);
    ReplaceSkipsPrefix(pre, tok + tail, tok, rep);
    assert (tok + tail)[..|tok|] == tok && (tok + tail)[|tok|..] == tail;
  }

  /** Another three-character token passes through the replacement of `pat`. */
  lemma ReplaceOtherToken(u: string, rest: string, pat: string, rep: string)
    requires |u| == 3 && |pat| == 3 && u[0] == pat[0] == '%'
    requires u[1] != pat[1] && u[1] != '%' && u[2] != '%'
    ensures Replace(u + rest, pat, rep) == u + Replace(rest, pat, rep)
  {
    var s := u + rest;
    assert s[..3][1] == u[1];
    assert s[1..] == u[1..] + rest;
    assert '%' !in u[1..];
    ReplaceSkipsPrefix(u[1..], rest, pat, rep);
    assert [u[0]] + u[1..] == u;
  }

  /** A space and another token pass through the replacement of `pat` unchanged. */
  lemma SpaceTokenPasses(u: string, rest: string, pat: string, rep: string)
    requires |u| == 3 && |pat| == 3 && u[0] == pat[0] == '%'
    requires u[1] != pat[1] && u[1] != '%' && u[2] != '%'
    requires Replace(rest, pat, rep) == rest
    ensures Replace(" " + u + rest, pat, rep) == " " + u + rest
  {
    ReplaceOtherToken(u, rest, pat, rep);
    ReplaceSkipsPrefix(" ", u + rest, pat, rep);
    assert " " + u + rest == " " + (u + rest);
  }

  /** The pieces of the tails of the default template. */
  lemma TailPieces()
    ensures " %ss" == " " + "%ss" + []
    ensures " %mm %ss" == " " + "%mm" + " %ss"
    ensures " %hh %mm %ss" == " " + "%hh" + " %mm %ss"
    ensures DefaultFormat == [] + "%dd" + " %hh %mm %ss"
  {
  }

  lemma TailAfterMinutes(m: string)
    ensures Replace(" %ss", "%mm", m) == " %ss"
  {
    TailPieces();
    ReplaceNoPercent([], "%mm", m);
    SpaceTokenPasses("%ss", [], "%mm", m);
  }

  lemma TailAfterHours(h: string)
    ensures Replace(" %mm %ss", "%hh", h) == " %mm %ss"
  {
    TailPieces();
    ReplaceNoPercent([], "%hh", h);
    SpaceTokenPasses("%ss", [], "%hh", h);
    SpaceTokenPasses("%mm", " %ss", "%hh", h);
  }

  lemma TailAfterDays(d: string)
    ensures Replace(" %hh %mm %ss", "%dd", d) == " %hh %mm %ss"
  {
    TailPieces();
    ReplaceNoPercent([], "%dd", d);
    SpaceTokenPasses("%ss", [], "%dd", d);
    SpaceTokenPasses("%mm", " %ss", "%dd", d);
    SpaceTokenPasses("%hh", " %mm %ss", "%dd", d);
  }

  lemma FillDays(d: string)
    requires '%' !in d
    ensures Replace(DefaultFormat, "%dd", d) == d + " %hh %mm %ss"
  {
    TailPieces();
    TailAfterDays(d);
    ReplaceToken([], "%dd", " %hh %mm %ss", d);
    assert [] + d + " %hh %mm %ss" == d + " %hh %mm %ss";
  }

  /** After `%`-free text and a space, the token is replaced and the tail kept. */
  lemma FillAfterSpace(x: string, tok: string, tail: string, rep: string)
    requires '%' !in x && |tok| > 0 && tok[0] == '%'
    requires Replace(tail, tok, rep) == tail
    ensures Replace(x + " " + tok + tail, tok, rep) == x + " " + rep + tail
  {
    var y := x + " ";
    assert '%' !in y by {
      forall i | 0 <= i < |y| ensures y[i] != '%' {
        if i < |x| { assert y[i] == x[i]; }
      }
    }
    ReplaceToken(y, tok, tail, rep);
  }

  lemma Regroup(x: string, a: string, b: string, c: string)
    ensures x + (a + b + c) == x + a + b + c
  {
  }

  lemma FillHours(x: string, h: string)
    requires '%' !in x && '%' !in h
    ensures Replace(x + " %hh %mm %ss", "%hh", h) == x + " " + h + " %mm %ss"
  {
    TailPieces();
    TailAfterHours(h);
    FillAfterSpace(x, "%hh", " %mm %ss", h);
    Regroup(x, " ", "%hh", " %mm %ss");
  }

  lemma FillMinutes(x: string, m: string)
    requires '%' !in x && '%' !in m
    ensures Replace(x + " %mm %ss", "%mm", m) == x + " " + m + " %ss"
  {
    TailPieces();
    TailAfterMinutes(m);
    FillAfterSpace(x, "%mm", " %ss", m);
    Regroup(x, " ", "%mm", " %ss");
  }

  lemma FillSeconds(x: string, s: string)
    requires '%' !in x && '%' !in s
    ensures Replace(x + " %ss", "%ss", s) == x + " " + s
  {
    TailPieces();
    ReplaceNoPercent([], "%ss", s);
    FillAfterSpace(x, "%ss", [], s);
    Regroup(x, " ", "%ss", []);
    assert x + " " + s + [] == x + " " + s;
  }

  /** The four long tokens of the default template, filled in order. */
  lemma FillDefault(d: string, h: string, m: string, s: string)
    requires '%' !in d && '%' !in h && '%' !in m && '%' !in s
    ensures Fill(DefaultFormat, d, h, m, s) == d + "d" + " " + (h + "h") + " " + (m + "m") + " " + (s + "s")
  {
    FillLongDefault(d, h, m, s);
    var e := d + "d" + " " + (h + "h") + " " + (m + "m") + " " + (s + "s");
    assert '%' !in e;
    FillPlain(e, d, h, m, s);
  }

  lemma FillLongDefault(d: string, h: string, m: string, s: string)
    requires '%' !in d && '%' !in h && '%' !in m && '%' !in s
    ensures FillLong(DefaultFormat, d, h, m, s) == d + "d" + " " + (h + "h") + " " + (m + "m") + " " + (s + "s")
  {
    var d', h', m', s' := d + "d", h + "h", m + "m", s + "s";
    assert '%' !in d' && '%' !in h' && '%' !in m' && '%' !in s';
    var a := d';
    var b := a + " " + h';
    var c := b + " " + m';
    var e := c + " " + s';
    assert '%' !in a && '%' !in b && '%' !in c && '%' !in e;
    FillDays(d');
    FillHours(a, h');
    FillMinutes(b, m');
    FillSeconds(c, s');
    assert FillLong(DefaultFormat, d, h, m, s) == e;
  }

  /** The default template renders as `DDd HHh MMm SSs`. */
  lemma DefaultFormatShape(seconds: int)
    ensures var p := Split(seconds);
      FormatTimeRemaining(Some(seconds), DefaultFormat) ==
        Pad2(p.days) + "d" + " " + (Pad2(p.hours) + "h") + " " + (Pad2(p.minutes) + "m") + " " + (Pad2(p.secs) + "s")
  {
    var p := Split(seconds);
    Pad2NoPercent(p.days);
    Pad2NoPercent(p.hours);
    Pad2NoPercent(p.minutes);
    Pad2NoPercent(p.secs);
    FillDefault(Pad2(p.days), Pad2(p.hours), Pad2(p.minutes), Pad2(p.secs));
  }
}
