/**
 * The timer parser (`extract_time`): reads the in-game "CURRENT MATCH"
 * banner and turns its `MM:SS` clock into the `MM_SS` form used in file
 * names.
 */
module TimerParser {
  import opened Wrappers
  import opened Text
  import opened Ocr

  /** The banner text that must appear in the timer region. */
  const Marker: string := "CURRENT MATCH"

  /** The regular expression `^\d{2,3}:\d{2}$` over ASCII digits. */
  predicate IsTimerToken(tok: string) {
    5 <= |tok| <= 6 && AllDigits(tok[..|tok| - 3]) && tok[|tok| - 3] == ':' && AllDigits(tok[|tok| - 2..])
  }

  /** The minutes of a clock token or a file timer: everything before the separator. */
  function MinutesOf(t: string): string
    requires |t| >= 3
  {
    t[..|t| - 3]
  }

  /** The seconds of a clock token or a file timer: the two characters after the separator. */
  function SecondsOf(t: string): string
    requires |t| >= 3
  {
    t[|t| - 2..]
  }

  /**
   * A timer as it appears in a frame file name: two or three digits of
   * minutes, `_`, two digits of seconds below 60.
   */
  predicate IsFileTimer(t: string) {
    5 <= |t| <= 6 && AllDigits(MinutesOf(t)) && t[|t| - 3] == '_' && AllDigits(SecondsOf(t))
    && DigitsValue(SecondsOf(t)) < 60
  }

  /**
   * The clock check on the last word: a `^\d{2,3}:\d{2}$` token with
   * seconds below 60 becomes its minutes, `_`, its seconds (`replace(":", "_")`).
   */
  function ClockTimer(tok: string): (r: Option<string>)
    ensures r.Some? <==> IsTimerToken(tok) && DigitsValue(SecondsOf(tok)) < 60
    ensures r.Some? ==> r.value == MinutesOf(tok) + "_" + SecondsOf(tok)
    ensures r.Some? ==> IsFileTimer(r.value) && ':' !in r.value
  {
    if !IsTimerToken(tok) then None
    else if DigitsValue(SecondsOf(tok)) >= 60 then None
    else
      ReplaceSeparator(tok);
      Some(ReplaceChar(tok, ':', '_'))
  }

  /** Replacing `:` in a clock token only changes its separator, giving a file timer. */
  lemma ReplaceSeparator(tok: string)
    requires IsTimerToken(tok) && DigitsValue(SecondsOf(tok)) < 60
    ensures ReplaceChar(tok, ':', '_') == MinutesOf(tok) + "_" + SecondsOf(tok)
    ensures var t := ReplaceChar(tok, ':', '_');
            IsFileTimer(t) && ':' !in t && MinutesOf(t) == MinutesOf(tok) && SecondsOf(t) == SecondsOf(tok)
  {
    var t := ReplaceChar(tok, ':', '_');
    assert MinutesOf(t) == MinutesOf(tok) && SecondsOf(t) == SecondsOf(tok);
  }

  /** The banner starts and ends with a non-space, so `strip()` keeps it, and text carrying it has words. */
  lemma MarkerAfterStrip(raw: string)
    ensures Contains(Strip(raw), Marker) <==> Contains(raw, Marker)
    ensures Contains(Strip(raw), Marker) ==> Split(Strip(raw)) != []
  {
    StripKeepsContains(raw, Marker);
    if Contains(Strip(raw), Marker) {
      ContainsNotBlank(Strip(raw), Marker);
    }
  }

  /**
   * `extract_time`: the last word of the recognised text, when the text
   * carries the banner and that word is a valid `MM:SS` clock, with `:`
   * turned into `_`; nothing otherwise (and nothing when OCR failed).
   */
  function ExtractTime(ocr: OcrOutput): (r: Option<string>)
    ensures r.Some? ==> ocr.Recognized? && Contains(ocr.text, Marker)
    ensures r.Some? ==> IsFileTimer(r.value) && ':' !in r.value
  {
    match ocr
    case OcrError => None
    case Recognized(raw) =>
      var text := Strip(raw);
      MarkerAfterStrip(raw);
      if !Contains(text, Marker) then None
      else
        var parts := Split(text);
        ClockTimer(parts[|parts| - 1])
  }

  /**
   * `extract_time` succeeds exactly when the text contains the banner, its
   * last whitespace-separated word `tok` is a 2-3 digit, `:`, 2 digit clock
   * and the seconds are below 60; the result is the minutes, `_`, the seconds.
   */
  lemma ExtractTimeReadsLastWord(raw: string, p: string, tok: string, w: string)
    requires raw == p + tok + w
    requires tok != [] && NoSpace(tok) && AllSpace(w) && (p == [] || IsSpace(p[|p| - 1]))
    ensures ExtractTime(Recognized(raw)) ==
      if Contains(raw, Marker) && IsTimerToken(tok) && DigitsValue(SecondsOf(tok)) < 60
      then Some(MinutesOf(tok) + "_" + SecondsOf(tok))
      else None
  {
    MarkerAfterStrip(raw);
    StripSplitLast(p, tok, w);
    var r := ClockTimer(tok);
  }

  /** Text that is blank (or empty) never yields a timer. */
  lemma ExtractTimeBlank(raw: string)
    requires AllSpace(raw)
    ensures ExtractTime(Recognized(raw)) == None
  {
    if Contains(raw, Marker) {
      ContainsNotBlank(raw, Marker);
    }
  }

  /** The banner followed by a word, read through `ExtractTimeReadsLastWord`. */
  lemma BannerThenWord(tok: string)
    requires tok != [] && NoSpace(tok)
    ensures ExtractTime(Recognized(Marker + " " + tok)) ==
      if IsTimerToken(tok) && DigitsValue(SecondsOf(tok)) < 60
      then Some(MinutesOf(tok) + "_" + SecondsOf(tok))
      else None
  {
    var raw := Marker + " " + tok;
    assert raw == (Marker + " ") + tok + [];
    assert Marker <= raw[0..];
    ExtractTimeReadsLastWord(raw, Marker + " ", tok, []);
  }

  /** Worked example: a banner with a valid clock. */
  lemma ExtractTimeExampleValid(raw: string)
    requires raw == "CURRENT MATCH 12:34"
    ensures ExtractTime(Recognized(raw)) == Some("12_34")
  {
    var tok := "12:34";
    assert raw == Marker + " " + tok;
    assert IsTimerToken(tok);
    var minutes, seconds := MinutesOf(tok), SecondsOf(tok);
    assert minutes == "12" && seconds == "34";
    assert minutes + "_" + seconds == "12_34";
    assert seconds[..1] == "3" && DigitsValue("3") == 3;
    assert DigitsValue(seconds) == 34;
    BannerThenWord(tok);
  }

  /** Worked example: seconds of 60 or more are rejected. */
  lemma ExtractTimeExampleSeconds(raw: string)
    requires raw == "CURRENT MATCH 12:61"
    ensures ExtractTime(Recognized(raw)) == None
  {
    var tok := "12:61";
    assert raw == Marker + " " + tok;
    assert SecondsOf(tok) == "61" && "61"[..1] == "6";
    assert DigitsValue("61") == 61;
    BannerThenWord(tok);
  }

  /** Worked example: one-digit fields do not match the clock pattern. */
  lemma ExtractTimeExampleShort()
    ensures ExtractTime(Recognized("CURRENT MATCH 1:2")) == None
  {
    ExtractTimeReadsLastWord("CURRENT MATCH 1:2", "CURRENT MATCH ", "1:2", "");
  }

  /** Worked example: text without the banner. */
  lemma ExtractTimeExampleNoMarker()
    ensures ExtractTime(Recognized("no marker here")) == None
  {
    NotContainsFirstChar("no marker here", Marker);
    ExtractTimeReadsLastWord("no marker here", "no marker ", "here", "");
  }
}
