/**
 * File names the capture loop writes and the GIF assembler reads back:
 * debug crops `chat_region_<n>.png` and `time_region_<n>.png`, map frames
 * `map_<n>_<timer>.png`, and the pattern `map_(\d+)_(\d+)_(\d+)\.png` that
 * recovers index, minutes and seconds from a frame name.
 */
module FrameNames {
  import opened Wrappers
  import opened Text
  import opened TimerParser

  /** What the loop puts in a frame name when both timer reads failed. */
  const UnknownTime: string := "unknown_time"

  /** `f"chat_region_{n}.png"`: a debug crop, never taken for a map frame. */
  function ChatRegionName(n: nat): (r: string)
    ensures EndsWith(r, ".png") && MatchFrameName(r).None?
  {
    var r := "chat_region_" + NatToString(n) + ".png";
    assert r[0] == 'c' && r[|r| - 4..] == ".png";
    r
  }

  /** `f"time_region_{n}.png"`: a debug crop, never taken for a map frame. */
  function TimeRegionName(n: nat): (r: string)
    ensures EndsWith(r, ".png") && MatchFrameName(r).None?
  {
    var r := "time_region_" + NatToString(n) + ".png";
    assert r[0] == 't' && r[|r| - 4..] == ".png";
    r
  }

  /** `f"map_{n}_{elapsed_time}.png"`: a `.png` that starts with `map_`. */
  function MapFileName(n: nat, timer: string): (r: string)
    ensures "map_" <= r && EndsWith(r, ".png")
  {
    "map_" + NatToString(n) + "_" + timer + ".png"
  }

  /** The three digit groups of a frame name: index, minutes, seconds. */
  datatype FrameFields = FrameFields(index: string, minutes: string, seconds: string)

  predicate ValidFields(f: FrameFields) {
    f.index != [] && AllDigits(f.index) &&
    f.minutes != [] && AllDigits(f.minutes) &&
    f.seconds != [] && AllDigits(f.seconds)
  }

  /** The text `map_(\d+)_(\d+)_(\d+)\.png` matches for the given groups. */
  function Pattern(f: FrameFields): string {
    "map_" + f.index + "_" + f.minutes + "_" + f.seconds + ".png"
  }

  /**
   * One `(\d+)` followed by the literal `sep`: the longest run of digits at
   * the start of `s` (a shorter one would leave a digit where `sep` must
   * start) and what follows `sep`.
   */
  function DigitsThen(s: string, sep: string): Option<(string, string)> {
    var n := LeadingDigits(s);
    if n > 0 && sep <= s[n..] then Some((s[..n], s[n + |sep|..])) else None
  }

  /** `DigitsThen` finds `d`, `sep`, `rest` exactly when `s` is made of them. */
  lemma DigitsThenIff(s: string, sep: string, d: string, rest: string)
    requires sep != [] && !IsDigit(sep[0])
    ensures DigitsThen(s, sep) == Some((d, rest)) <==> d != [] && AllDigits(d) && s == d + sep + rest
  {
    if d != [] && AllDigits(d) && s == d + sep + rest {
      assert s == d + (sep + rest);
      LeadingDigitsOf(d, sep + rest);
      assert s[|d|..] == sep + rest;
      assert s[..|d|] == d;
      assert s[|d| + |sep|..] == rest;
    }
    if DigitsThen(s, sep) == Some((d, rest)) {
      var n := LeadingDigits(s);
      assert s == s[..n] + s[n..];
      assert s[n..] == sep + s[n + |sep|..];
    }
  }

  /**
   * `re.match(r"map_(\d+)_(\d+)_(\d+)\.png", name)`: the groups when the
   * name starts with the pattern (anything may follow `.png`).
   */
  function MatchFrameName(name: string): Option<FrameFields> {
    if !("map_" <= name) then None
    else
      match DigitsThen(name[4..], "_")
      case None => None
      case Some((index, afterIndex)) =>
        match DigitsThen(afterIndex, "_")
        case None => None
        case Some((minutes, afterMinutes)) =>
          match DigitsThen(afterMinutes, ".png")
          case None => None
          case Some((seconds, _)) => Some(FrameFields(index, minutes, seconds))
  }

  /** Every name that starts with the pattern of some digit groups is matched, with those groups. */
  lemma MatchFrameNameComplete(name: string, f: FrameFields)
    requires ValidFields(f) && Pattern(f) <= name
    ensures MatchFrameName(name) == Some(f)
  {
    var rest := name[|Pattern(f)|..];
    var r2 := f.seconds + ".png" + rest;
    var r1 := f.minutes + "_" + r2;
    assert name[4..] == f.index + "_" + r1;
    DigitsThenIff(name[4..], "_", f.index, r1);
    DigitsThenIff(r1, "_", f.minutes, r2);
    DigitsThenIff(r2, ".png", f.seconds, rest);
  }

  /** What the matcher returns are digit groups whose pattern starts the name. */
  lemma MatchFrameNameSound(name: string, f: FrameFields)
    requires MatchFrameName(name) == Some(f)
    ensures ValidFields(f) && Pattern(f) <= name
  {
    var a := name[4..];
    var m1 := DigitsThen(a, "_").value;
    DigitsThenSome(a, "_");
    var m2 := DigitsThen(m1.1, "_").value;
    DigitsThenSome(m1.1, "_");
    var m3 := DigitsThen(m2.1, ".png").value;
    DigitsThenSome(m2.1, ".png");
    assert f == FrameFields(m1.0, m2.0, m3.0);
    PrefixThenRest(name, "map_");
    PatternPieces(name, a, m1.1, m2.1, m3.1, f);
  }

  /** The forward half of `DigitsThenIff`, for a result already in hand. */
  lemma DigitsThenSome(s: string, sep: string)
    requires sep != [] && !IsDigit(sep[0]) && DigitsThen(s, sep).Some?
    ensures var (d, rest) := DigitsThen(s, sep).value; d != [] && AllDigits(d) && s == d + sep + rest
  {
    var (d, rest) := DigitsThen(s, sep).value;
    DigitsThenIff(s, sep, d, rest);
  }

  lemma PrefixThenRest(s: string, p: string)
    requires p <= s
    ensures s == p + s[|p|..]
  {
  }

  /** Reassembles a name from the pieces the matcher cut it into. */
  lemma PatternPieces(name: string, a: string, r1: string, r2: string, r3: string, f: FrameFields)
    requires name == "map_" + a && a == f.index + "_" + r1
    requires r1 == f.minutes + "_" + r2 && r2 == f.seconds + ".png" + r3
    ensures name == Pattern(f) + r3
  {
  }

  /**
   * The matcher agrees with the pattern: it returns the groups `f` exactly
   * when they are digit groups and `name` starts with `Pattern(f)`.
   */
  lemma MatchFrameNameIff(name: string, f: FrameFields)
    ensures MatchFrameName(name) == Some(f) <==> ValidFields(f) && Pattern(f) <= name
  {
    if ValidFields(f) && Pattern(f) <= name {
      MatchFrameNameComplete(name, f);
    }
    if MatchFrameName(name) == Some(f) {
      MatchFrameNameSound(name, f);
    }
  }

  /**
   * A frame name written with a parsed timer is matched with its index,
   * minutes and seconds: `get_sort_key` and the label regex read back what
   * the capture loop wrote.
   */
  lemma MapFileNameMatches(n: nat, timer: string)
    requires IsFileTimer(timer)
    ensures MatchFrameName(MapFileName(n, timer)) == Some(FrameFields(NatToString(n), MinutesOf(timer), SecondsOf(timer)))
  {
    var f := FrameFields(NatToString(n), MinutesOf(timer), SecondsOf(timer));
    MapFileNamePattern(n, timer);
    MatchFrameNameComplete(MapFileName(n, timer), f);
  }

  /** A frame name written with a file timer is the pattern of its counter, minutes and seconds. */
  lemma MapFileNamePattern(n: nat, timer: string)
    requires IsFileTimer(timer)
    ensures var f := FrameFields(NatToString(n), MinutesOf(timer), SecondsOf(timer));
            ValidFields(f) && MapFileName(n, timer) == Pattern(f)
  {
    assert timer == MinutesOf(timer) + "_" + SecondsOf(timer);
  }

  /** A frame name written with `unknown_time` does not match the pattern. */
  lemma UnknownTimeUnmatched(n: nat)
    ensures MatchFrameName(MapFileName(n, UnknownTime)) == None
  {
    var name := MapFileName(n, UnknownTime);
    var rest := UnknownTime + ".png";
    assert name == "map_" + (NatToString(n) + "_" + rest);
    assert name[4..] == NatToString(n) + "_" + rest;
    DigitsThenIff(name[4..], "_", NatToString(n), rest);
    assert rest[0] == 'u';
    assert DigitsThen(rest, "_") == None;
  }

  /**
   * Map file names are injective: two frames get the same name only for the
   * same count and the same timer text, so a later frame never overwrites an
   * earlier one with a different count.
   */
  lemma MapFileNameInjective(n: nat, t: string, m: nat, u: string)
    requires MapFileName(n, t) == MapFileName(m, u)
    ensures n == m && t == u
  {
    var tail := MapFileName(n, t)[4..];
    MapFileNameTail(n, t);
    MapFileNameTail(m, u);
    DigitsThenIff(tail, "_", NatToString(n), t + ".png");
    DigitsThenIff(tail, "_", NatToString(m), u + ".png");
    assert t == (t + ".png")[..|t|];
    assert u == (u + ".png")[..|u|];
  }

  /** What follows `map_` in a map file name. */
  lemma MapFileNameTail(n: nat, timer: string)
    ensures MapFileName(n, timer)[4..] == NatToString(n) + "_" + (timer + ".png")
  {
    assert MapFileName(n, timer) == "map_" + (NatToString(n) + "_" + (timer + ".png"));
  }

  /** The screenshot number a frame name starts with (`map_<n>_`), if any. */
  function FrameIndex(name: string): Option<nat> {
    if !("map_" <= name) then None
    else
      match DigitsThen(name[4..], "_")
      case None => None
      case Some((index, _)) => Some(DigitsValue(index))
  }

  /** The number written into a map file name is read back from it, whatever the timer text. */
  lemma FrameIndexOfMapFileName(n: nat, timer: string)
    ensures FrameIndex(MapFileName(n, timer)) == Some(n)
  {
    var name := MapFileName(n, timer);
    assert name == "map_" + (NatToString(n) + "_" + (timer + ".png"));
    assert name[4..] == NatToString(n) + "_" + (timer + ".png");
    DigitsThenIff(name[4..], "_", NatToString(n), timer + ".png");
  }
}
