/**
 * GIF frame selection (`generate_gif`): keep the session folder's map
 * frames, sort them by the in-game time in their names (names that do not
 * parse go last), and label every frame that parses with its `MM:SS` clock.
 * Only the ordered list of labels is modelled, not the pictures.
 */
module GifAssembler {
  import opened Wrappers
  import opened Text
  import opened TimerParser
  import opened FrameNames

  // -------------------------------------------------------------- filter

  /** A file the GIF may use: a `.png` whose name contains `map_` and not `unknown_time`. */
  predicate IsGifCandidate(name: string) {
    EndsWith(name, ".png") && Contains(name, "map_") && !Contains(name, UnknownTime)
  }

  /**
   * The `image_files` comprehension over the folder listing: each listed
   * name that passes the filter, as often as it is listed, and nothing else.
   */
  function Candidates(listing: seq<string>): (kept: seq<string>)
    ensures forall name :: name in kept <==> name in listing && IsGifCandidate(name)
    ensures forall name :: multiset(kept)[name] == if IsGifCandidate(name) then multiset(listing)[name] else 0
  {
    if listing == [] then []
    else
      var last := listing[|listing| - 1];
      assert listing == listing[..|listing| - 1] + [last];
      Candidates(listing[..|listing| - 1]) + (if IsGifCandidate(last) then [last] else [])
  }

  // ------------------------------------------------------------ sort key

  /** What `get_sort_key` returns: total seconds, or `float('inf')` for a name that does not parse. */
  datatype SortKey = Seconds(total: nat) | Unmatched

  /** `get_sort_key`: minutes times sixty plus seconds, read from the name's second and third digit groups. */
  function SortKeyOf(name: string): (k: SortKey)
    ensures k.Unmatched? <==> MatchFrameName(name).None?
  {
    match MatchFrameName(name)
    case None => Unmatched
    case Some(f) =>
      MatchFrameNameSound(name, f);
      Seconds(DigitsValue(f.minutes) * 60 + DigitsValue(f.seconds))
  }

  /** `a < b` between keys: numbers by value, every number below infinity, infinity below nothing. */
  predicate KeyLess(a: SortKey, b: SortKey) {
    match (a, b)
    case (Seconds(x), Seconds(y)) => x < y
    case (Seconds(_), Unmatched) => true
    case (Unmatched, _) => false
  }

  // --------------------------------------------------------------- sort

  /**
   * `list.sort(key=key)` is a stable ascending sort. It is defined here as
   * insertion: each name, taken in list order, goes after every name already
   * placed whose key is not greater than its own.
   */
  function Insert(key: string -> SortKey, x: string, sorted: seq<string>): seq<string>
    decreases |sorted|
  {
    if sorted == [] then [x]
    else if KeyLess(key(x), key(sorted[0])) then [x] + sorted
    else [sorted[0]] + Insert(key, x, sorted[1..])
  }

  function SortByKey(key: string -> SortKey, files: seq<string>): seq<string>
    decreases |files|
  {
    if files == [] then []
    else Insert(key, files[|files| - 1], SortByKey(key, files[..|files| - 1]))
  }

  /** No name is followed by one with a smaller key. */
  predicate SortedBy(key: string -> SortKey, s: seq<string>) {
    forall i, j :: 0 <= i < j < |s| ==> !KeyLess(key(s[j]), key(s[i]))
  }

  /** The names of `s` whose key is `k`, in order. */
  function WithKey(key: string -> SortKey, s: seq<string>, k: SortKey): seq<string>
    decreases |s|
  {
    if s == [] then []
    else (if key(s[0]) == k then [s[0]] else []) + WithKey(key, s[1..], k)
  }

  lemma KeyLessTransitive(a: SortKey, b: SortKey, c: SortKey)
    requires KeyLess(a, b) && !KeyLess(c, b)
    ensures KeyLess(a, c)
  {
  }

  lemma {:induction false} WithKeyAppend(key: string -> SortKey, a: seq<string>, b: seq<string>, k: SortKey)
    ensures WithKey(key, a + b, k) == WithKey(key, a, k) + WithKey(key, b, k)
    decreases |a|
  {
    if a == [] {
      assert a + b == b;
    } else {
      assert (a + b)[0] == a[0] && (a + b)[1..] == a[1..] + b;
      WithKeyAppend(key, a[1..], b, k);
    }
  }

  /** In a sorted list no name has a key below that of its first name. */
  lemma {:induction false} WithKeyBelowFirst(key: string -> SortKey, s: seq<string>, k: SortKey)
    requires SortedBy(key, s) && s != [] && KeyLess(k, key(s[0]))
    ensures WithKey(key, s, k) == []
    decreases |s|
  {
    if |s| > 1 {
      assert !KeyLess(key(s[1]), key(s[0]));
      KeyLessTransitive(k, key(s[0]), key(s[1]));
      WithKeyBelowFirst(key, s[1..], k);
    }
  }

  lemma {:induction false} InsertPermutes(key: string -> SortKey, x: string, s: seq<string>)
    ensures multiset(Insert(key, x, s)) == multiset(s) + multiset{x}
    decreases |s|
  {
    if s != [] && !KeyLess(key(x), key(s[0])) {
      InsertPermutes(key, x, s[1..]);
      assert s == [s[0]] + s[1..];
    }
  }

  lemma {:induction false} InsertSorted(key: string -> SortKey, x: string, s: seq<string>)
    requires SortedBy(key, s)
    ensures SortedBy(key, Insert(key, x, s))
    ensures Insert(key, x, s) != [] && (Insert(key, x, s)[0] == x || (s != [] && Insert(key, x, s)[0] == s[0]))
    decreases |s|
  {
    if s != [] {
      if KeyLess(key(x), key(s[0])) {
        var r := [x] + s;
        forall i, j | 0 <= i < j < |r|
          ensures !KeyLess(key(r[j]), key(r[i]))
        {
          if i == 0 {
            assert !KeyLess(key(s[j - 1]), key(s[0])) || j - 1 == 0;
          }
        }
      } else {
        InsertSorted(key, x, s[1..]);
        var t := Insert(key, x, s[1..]);
        var r := [s[0]] + t;
        forall i, j | 0 <= i < j < |r|
          ensures !KeyLess(key(r[j]), key(r[i]))
        {
          if i == 0 {
            if t[j - 1] != x {
              InsertPermutes(key, x, s[1..]);
              assert t[j - 1] in multiset(t);
              assert t[j - 1] in multiset(s[1..]);
              var m :| 0 <= m < |s[1..]| && s[1..][m] == t[j - 1];
              assert s[m + 1] == t[j - 1];
            }
          }
        }
      }
    }
  }

  /** Inserting `x` into a sorted list adds `x` after every name with the same key. */
  lemma {:induction false} InsertStable(key: string -> SortKey, x: string, s: seq<string>, k: SortKey)
    requires SortedBy(key, s)
    ensures WithKey(key, Insert(key, x, s), k) == WithKey(key, s, k) + (if key(x) == k then [x] else [])
    decreases |s|, 1
  {
    if s == [] {
      WithKeyCons(key, x, [], k);
    } else if KeyLess(key(x), key(s[0])) {
      WithKeyCons(key, x, s, k);
      if key(x) == k {
        WithKeyBelowFirst(key, s, k);
      }
    } else {
      InsertStablePast(key, x, s, k);
    }
  }

  /** The inductive step of `InsertStable`: `x` goes past the first name. */
  lemma {:induction false} InsertStablePast(key: string -> SortKey, x: string, s: seq<string>, k: SortKey)
    requires SortedBy(key, s) && s != [] && !KeyLess(key(x), key(s[0]))
    ensures WithKey(key, Insert(key, x, s), k) == WithKey(key, s, k) + (if key(x) == k then [x] else [])
    decreases |s|, 0
  {
    var rest := Insert(key, x, s[1..]);
    assert Insert(key, x, s) == [s[0]] + rest;
    SortedTail(key, s);
    InsertStable(key, x, s[1..], k);
    WithKeyCons(key, s[0], rest, k);
    WithKeyCons(key, s[0], s[1..], k);
    assert [s[0]] + s[1..] == s;
  }

  /** `WithKey` of a list with one name in front. */
  lemma WithKeyCons(key: string -> SortKey, a: string, s: seq<string>, k: SortKey)
    ensures WithKey(key, [a] + s, k) == (if key(a) == k then [a] else []) + WithKey(key, s, k)
  {
    assert ([a] + s)[0] == a && ([a] + s)[1..] == s;
  }

  lemma SortedTail(key: string -> SortKey, s: seq<string>)
    requires SortedBy(key, s) && s != []
    ensures SortedBy(key, s[1..])
  {
    forall i, j | 0 <= i < j < |s| - 1 ensures !KeyLess(key(s[1..][j]), key(s[1..][i])) {
      assert s[1..][i] == s[i + 1] && s[1..][j] == s[j + 1];
    }
  }

  /** The sort returns a permutation of its input. */
  lemma {:induction false} SortPermutes(key: string -> SortKey, files: seq<string>)
    ensures multiset(SortByKey(key, files)) == multiset(files)
    decreases |files|
  {
    if files != [] {
      var init, last := files[..|files| - 1], files[|files| - 1];
      SortPermutes(key, init);
      InsertPermutes(key, last, SortByKey(key, init));
      assert files == init + [last];
    }
  }

  /** The sort returns its input in ascending key order. */
  lemma {:induction false} SortSorted(key: string -> SortKey, files: seq<string>)
    ensures SortedBy(key, SortByKey(key, files))
    decreases |files|
  {
    if files != [] {
      SortSorted(key, files[..|files| - 1]);
      InsertSorted(key, files[|files| - 1], SortByKey(key, files[..|files| - 1]));
    }
  }

  /** The sort is stable: names with equal keys keep their relative order. */
  lemma {:induction false} SortStable(key: string -> SortKey, files: seq<string>, k: SortKey)
    ensures WithKey(key, SortByKey(key, files), k) == WithKey(key, files, k)
    decreases |files|
  {
    if files != [] {
      var init, last := files[..|files| - 1], files[|files| - 1];
      SortStable(key, init, k);
      SortSorted(key, init);
      InsertStable(key, last, SortByKey(key, init), k);
      assert files == init + [last];
      WithKeyAppend(key, init, [last], k);
      assert [last][1..] == [];
    }
  }

  /** After sorting by `get_sort_key`, every name that does not parse comes after every name that does. */
  lemma UnmatchedLast(files: seq<string>, i: nat, j: nat)
    requires i < j < |SortByKey(SortKeyOf, files)|
    requires MatchFrameName(SortByKey(SortKeyOf, files)[i]).None?
    ensures MatchFrameName(SortByKey(SortKeyOf, files)[j]).None?
  {
    SortSorted(SortKeyOf, files);
  }

  // ------------------------------------------------------------- labels

  /**
   * The label regex `map_\d+_(\d+)_(\d+)\.png` matches the same names as
   * the sort-key regex; the label is the minutes group, `:`, the seconds group.
   */
  function FrameLabel(name: string): (caption: Option<string>)
    ensures caption.None? <==> MatchFrameName(name).None?
  {
    match MatchFrameName(name)
    case None => None
    case Some(f) => Some(f.minutes + ":" + f.seconds)
  }

  /** The labels of the frames that go into the GIF, in list order; names that do not parse are skipped. */
  function Labels(files: seq<string>): seq<string>
    decreases |files|
  {
    if files == [] then []
    else
      var last := FrameLabel(files[|files| - 1]);
      Labels(files[..|files| - 1]) + (if last.Some? then [last.value] else [])
  }

  /** There are no labels exactly when no name parses. */
  lemma {:induction false} LabelsEmpty(files: seq<string>)
    ensures Labels(files) == [] <==> forall name :: name in files ==> MatchFrameName(name).None?
    decreases |files|
  {
    if files != [] {
      var init := files[..|files| - 1];
      LabelsEmpty(init);
      assert files == init + [files[|files| - 1]];
    }
  }

  /** The per-frame loop of `generate_gif`: collect a label for each name that parses, skip the rest. */
  method FrameLabels(files: seq<string>) returns (labels: seq<string>)
    ensures labels == Labels(files)
  {
    labels := [];
    var i := 0;
    while i < |files|
      invariant 0 <= i <= |files|
      invariant labels == Labels(files[..i])
    {
      assert files[..i + 1][..i] == files[..i];
      var filename := files[i];
      i := i + 1;
      var caption := FrameLabel(filename);
      if caption.None? {
        continue;
      }
      labels := labels + [caption.value];
    }
    assert files[..i] == files;
  }

  // -------------------------------------------------------- generate_gif

  /** How `generate_gif` ends: no session folder, no usable image, or a GIF with these frame labels. */
  datatype GifOutcome = NoSession | NoImages | Gif(frameLabels: seq<string>)

  /**
   * `generate_gif`: filter the listing, sort by `get_sort_key`, label the
   * frames that parse; a GIF is produced exactly when there is a session
   * folder and some kept name parses.
   */
  method GenerateGif(sessionExists: bool, listing: seq<string>) returns (r: GifOutcome)
    ensures r.NoSession? <==> !sessionExists
    ensures r.NoImages? <==>
              sessionExists && (forall name :: name in listing && IsGifCandidate(name) ==> MatchFrameName(name).None?)
    ensures r.Gif? ==> r.frameLabels == Labels(SortByKey(SortKeyOf, Candidates(listing))) && r.frameLabels != []
  {
    if !sessionExists {
      return NoSession;
    }
    var imageFiles := Candidates(listing);
    if imageFiles == [] {
      return NoImages;
    }
    var sorted := SortByKey(SortKeyOf, imageFiles);
    SortPermutes(SortKeyOf, imageFiles);
    assert forall name :: name in sorted <==> name in imageFiles by {
      forall name ensures name in sorted <==> name in imageFiles {
        assert name in sorted <==> name in multiset(sorted);
        assert name in imageFiles <==> name in multiset(imageFiles);
      }
    }
    LabelsEmpty(sorted);
    var labels := FrameLabels(sorted);
    if labels == [] {
      return NoImages;
    }
    return Gif(labels);
  }

  /** A name that is exactly the pattern of some digit groups sorts at their minutes and seconds. */
  lemma KeyOfPattern(name: string, f: FrameFields)
    requires ValidFields(f) && Pattern(f) == name
    ensures SortKeyOf(name) == Seconds(DigitsValue(f.minutes) * 60 + DigitsValue(f.seconds))
    ensures FrameLabel(name) == Some(f.minutes + ":" + f.seconds)
  {
    MatchFrameNameComplete(name, f);
    KeyOfMatch(name, f);
    LabelOfMatch(name, f);
  }

  /** The sort key of a matched name, from its groups. */
  lemma KeyOfMatch(name: string, f: FrameFields)
    requires MatchFrameName(name) == Some(f)
    ensures SortKeyOf(name) == Seconds(DigitsValue(f.minutes) * 60 + DigitsValue(f.seconds))
  {
  }

  /** The label of a matched name, from its groups. */
  lemma LabelOfMatch(name: string, f: FrameFields)
    requires MatchFrameName(name) == Some(f)
    ensures FrameLabel(name) == Some(f.minutes + ":" + f.seconds)
  {
  }

  /** `int("02")` and `int("05")`, `int("01")`, `int("59")`, `int("10")`, `int("00")`. */
  lemma ExampleDigits()
    ensures DigitsValue("02") == 2 && DigitsValue("05") == 5
    ensures DigitsValue("01") == 1 && DigitsValue("59") == 59
    ensures DigitsValue("10") == 10 && DigitsValue("00") == 0
  {
    assert "02"[..1] == "0" && "05"[..1] == "0" && "01"[..1] == "0";
    assert "59"[..1] == "5" && "10"[..1] == "1" && "00"[..1] == "0";
  }

  /** A name made of the pattern of `f` sorts at `total` and carries `caption`, given the digit values. */
  lemma ExampleFrame(name: string, f: FrameFields, total: nat, caption: string)
    requires ValidFields(f) && Pattern(f) == name
    requires DigitsValue(f.minutes) * 60 + DigitsValue(f.seconds) == total
    requires f.minutes + ":" + f.seconds == caption
    ensures SortKeyOf(name) == Seconds(total) && FrameLabel(name) == Some(caption)
  {
    KeyOfPattern(name, f);
  }

  lemma ExampleFrameA(a: string)
    requires a == "map_1_02_05.png"
    ensures SortKeyOf(a) == Seconds(125) && FrameLabel(a) == Some("02:05")
  {
    ExampleDigits();
    var f := FrameFields("1", "02", "05");
    assert Pattern(f) == a;
    ExampleFrame(a, f, 125, "02:05");
  }

  lemma ExampleFrameB(b: string)
    requires b == "map_2_01_59.png"
    ensures SortKeyOf(b) == Seconds(119) && FrameLabel(b) == Some("01:59")
  {
    ExampleDigits();
    var f := FrameFields("2", "01", "59");
    assert Pattern(f) == b;
    ExampleFrame(b, f, 119, "01:59");
  }

  lemma ExampleFrameC(c: string)
    requires c == "map_3_10_00.png"
    ensures SortKeyOf(c) == Seconds(600) && FrameLabel(c) == Some("10:00")
  {
    ExampleDigits();
    var f := FrameFields("3", "10", "00");
    assert Pattern(f) == c;
    ExampleFrame(c, f, 600, "10:00");
  }

  lemma ExampleFrameD(d: string)
    requires d == "map_4_bad.png"
    ensures SortKeyOf(d) == Unmatched && FrameLabel(d) == None
  {
    var rest := d[4..];
    assert rest == "4" + "_" + "bad.png";
    DigitsThenIff(rest, "_", "4", "bad.png");
    assert LeadingDigits("bad.png") == 0;
  }

  /** Sorting a list with one more name inserts that name into the sorted rest. */
  lemma SortSnoc(key: string -> SortKey, s: seq<string>, x: string)
    ensures SortByKey(key, s + [x]) == Insert(key, x, SortByKey(key, s))
  {
    assert (s + [x])[..|s|] == s;
  }

  /** Inserting into a list of one name. */
  lemma InsertOne(key: string -> SortKey, x: string, y: string)
    ensures Insert(key, x, [y]) == if KeyLess(key(x), key(y)) then [x, y] else [y, x]
  {
    assert [y][1..] == [];
  }

  /** Inserting past the first name of a list. */
  lemma InsertPast(key: string -> SortKey, x: string, y: string, s: seq<string>)
    requires !KeyLess(key(x), key(y))
    ensures Insert(key, x, [y] + s) == [y] + Insert(key, x, s)
  {
    assert ([y] + s)[1..] == s;
  }

  /** The insertion steps of the worked example, from the keys alone. */
  lemma ExampleOrder(key: string -> SortKey, a: string, b: string, c: string, d: string)
    requires key(a) == Seconds(125) && key(b) == Seconds(119)
    requires key(c) == Seconds(600) && key(d) == Unmatched
    ensures SortByKey(key, [a, b, c, d]) == [b, a, c, d]
  {
    assert SortByKey(key, [a]) == [a] by {
      SortSnoc(key, [], a);
      assert [] + [a] == [a];
    }
    assert SortByKey(key, [a, b]) == [b, a] by {
      SortSnoc(key, [a], b);
      assert [a] + [b] == [a, b];
      InsertOne(key, b, a);
    }
    assert SortByKey(key, [a, b, c]) == [b, a, c] by {
      SortSnoc(key, [a, b], c);
      assert [a, b] + [c] == [a, b, c] && [b, a] == [b] + [a];
      InsertPast(key, c, b, [a]);
      InsertOne(key, c, a);
      assert [b] + [a, c] == [b, a, c];
    }
    assert SortByKey(key, [a, b, c, d]) == [b, a, c, d] by {
      SortSnoc(key, [a, b, c], d);
      assert [a, b, c] + [d] == [a, b, c, d] && [b, a, c] == [b] + [a, c] && [a, c] == [a] + [c];
      InsertPast(key, d, b, [a, c]);
      InsertPast(key, d, a, [c]);
      InsertOne(key, d, c);
      assert [a] + [c, d] == [a, c, d];
      assert [b] + [a, c, d] == [b, a, c, d];
      assert [b] + [a, c] == [b, a, c] && [a] + [c] == [a, c];
    }
  }

  /** Labels of a list with one more name: the label of that name is appended when it has one. */
  lemma LabelsSnoc(s: seq<string>, x: string, caption: Option<string>)
    requires FrameLabel(x) == caption
    ensures Labels(s + [x]) == Labels(s) + (if caption.Some? then [caption.value] else [])
  {
    assert (s + [x])[..|s|] == s;
  }

  /** One labelled name more, one label more. */
  lemma LabelsStep(s: seq<string>, x: string, before: seq<string>, caption: string)
    requires Labels(s) == before && FrameLabel(x) == Some(caption)
    ensures Labels(s + [x]) == before + [caption]
  {
    LabelsSnoc(s, x, Some(caption));
  }

  /** One unlabelled name more, no label more. */
  lemma LabelsSkip(s: seq<string>, x: string)
    requires FrameLabel(x) == None
    ensures Labels(s + [x]) == Labels(s)
  {
    LabelsSnoc(s, x, None);
    assert Labels(s) + [] == Labels(s);
  }

  /** Four names appended one at a time to the empty list. */
  lemma BuildFour(w: string, x: string, y: string, z: string)
    ensures [] + [w] + [x] + [y] + [z] == [w, x, y, z]
  {
  }

  /** Three names appended one at a time to the empty list. */
  lemma BuildThree(w: string, x: string, y: string)
    ensures [] + [w] + [x] + [y] == [w, x, y]
  {
  }

  /** The labels of the worked example, from the labels of its names. */
  lemma ExampleLabels(a: string, b: string, c: string, d: string, la: string, lb: string, lc: string)
    requires FrameLabel(a) == Some(la) && FrameLabel(b) == Some(lb)
    requires FrameLabel(c) == Some(lc) && FrameLabel(d) == None
    ensures Labels([b, a, c, d]) == [lb, la, lc]
  {
    var s0: seq<string> := [];
    var s1 := s0 + [b];
    var s2 := s1 + [a];
    var s3 := s2 + [c];
    LabelsStep(s0, b, [], lb);
    LabelsStep(s1, a, [] + [lb], la);
    LabelsStep(s2, c, [] + [lb] + [la], lc);
    LabelsSkip(s3, d);
    BuildFour(b, a, c, d);
    BuildThree(lb, la, lc);
  }

  /**
   * Worked example: `map_1_02_05.png`, `map_2_01_59.png`, `map_3_10_00.png`
   * and `map_4_bad.png` sort as frames 2, 1, 3 (by in-game time) and then 4
   * (which does not parse); the GIF is labelled 01:59, 02:05, 10:00.
   */
  lemma SortExample(a: string, b: string, c: string, d: string)
    requires a == "map_1_02_05.png" && b == "map_2_01_59.png"
    requires c == "map_3_10_00.png" && d == "map_4_bad.png"
    ensures SortByKey(SortKeyOf, [a, b, c, d]) == [b, a, c, d]
    ensures Labels(SortByKey(SortKeyOf, [a, b, c, d])) == ["01:59", "02:05", "10:00"]
  {
    ExampleFrameA(a);
    ExampleFrameB(b);
    ExampleFrameC(c);
    ExampleFrameD(d);
    ExampleOrder(SortKeyOf, a, b, c, d);
    ExampleLabels(a, b, c, d, "02:05", "01:59", "10:00");
  }

  // ------------------------------------------- frames the capture loop saved

  /** No character of a frame name written with a parsed timer is `u`. */
  lemma NoUInMapFileName(n: nat, timer: string)
    requires IsFileTimer(timer)
    ensures 'u' !in MapFileName(n, timer)
  {
    var d := NatToString(n);
    assert MapFileName(n, timer) == "map_" + d + "_" + timer + ".png";
    assert forall i :: 0 <= i < |d| ==> IsDigit(d[i]);
    assert forall i :: 0 <= i < |timer| ==> IsDigit(timer[i]) || timer[i] == '_' by {
      assert timer == MinutesOf(timer) + "_" + SecondsOf(timer);
    }
  }

  /**
   * A frame the capture loop saved with a parsed timer `MM_SS` is kept by
   * the filter, sorts at `MM * 60 + SS` seconds and is labelled `MM:SS`.
   */
  lemma TimedFrameInGif(n: nat, timer: string)
    requires IsFileTimer(timer)
    ensures IsGifCandidate(MapFileName(n, timer))
    ensures SortKeyOf(MapFileName(n, timer)) == Seconds(DigitsValue(MinutesOf(timer)) * 60 + DigitsValue(SecondsOf(timer)))
    ensures FrameLabel(MapFileName(n, timer)) == Some(MinutesOf(timer) + ":" + SecondsOf(timer))
  {
    TimedFrameIsCandidate(n, timer);
    TimedFrameKey(n, timer);
    TimedFrameLabel(n, timer);
  }

  lemma TimedFrameKey(n: nat, timer: string)
    requires IsFileTimer(timer)
    ensures SortKeyOf(MapFileName(n, timer)) == Seconds(DigitsValue(MinutesOf(timer)) * 60 + DigitsValue(SecondsOf(timer)))
  {
    MapFileNameMatches(n, timer);
    KeyOfMatch(MapFileName(n, timer), FrameFields(NatToString(n), MinutesOf(timer), SecondsOf(timer)));
  }

  lemma TimedFrameLabel(n: nat, timer: string)
    requires IsFileTimer(timer)
    ensures FrameLabel(MapFileName(n, timer)) == Some(MinutesOf(timer) + ":" + SecondsOf(timer))
  {
    MapFileNameMatches(n, timer);
    LabelOfMatch(MapFileName(n, timer), FrameFields(NatToString(n), MinutesOf(timer), SecondsOf(timer)));
  }

  /** A frame name written with a parsed timer passes the GIF filter. */
  lemma TimedFrameIsCandidate(n: nat, timer: string)
    requires IsFileTimer(timer)
    ensures IsGifCandidate(MapFileName(n, timer))
  {
    var name := MapFileName(n, timer);
    assert EndsWith(name, ".png");
    assert "map_" <= name[0..];
    NoUInMapFileName(n, timer);
    NotContainsFirstChar(name, UnknownTime);
  }

  /** A frame saved as `unknown_time` never reaches the GIF. */
  lemma UnknownFrameDropped(n: nat)
    ensures !IsGifCandidate(MapFileName(n, UnknownTime))
  {
    var name := MapFileName(n, UnknownTime);
    var k := 4 + |NatToString(n)| + 1;
    assert name[k..] == UnknownTime + ".png";
    assert UnknownTime <= name[k..];
  }

  /** The file timer made from a clock token has the token's minutes and seconds. */
  lemma TimerOfClock(tok: string)
    requires IsTimerToken(tok) && DigitsValue(SecondsOf(tok)) < 60
    ensures var timer := MinutesOf(tok) + "_" + SecondsOf(tok);
            MinutesOf(timer) == MinutesOf(tok) && SecondsOf(timer) == SecondsOf(tok) && IsFileTimer(timer)
  {
    var timer := MinutesOf(tok) + "_" + SecondsOf(tok);
    assert MinutesOf(timer) == MinutesOf(tok);
    assert SecondsOf(timer) == SecondsOf(tok);
  }

  /** A clock token is its minutes, `:`, its seconds. */
  lemma ClockSplit(tok: string)
    requires IsTimerToken(tok)
    ensures tok == MinutesOf(tok) + ":" + SecondsOf(tok)
  {
  }

  /** A clock token `MM:SS` saved as `MM_SS` comes back as the label `MM:SS`, sorting at its total seconds. */
  lemma ClockLabel(n: nat, tok: string)
    requires IsTimerToken(tok) && DigitsValue(SecondsOf(tok)) < 60
    ensures FrameLabel(MapFileName(n, MinutesOf(tok) + "_" + SecondsOf(tok))) == Some(tok)
    ensures SortKeyOf(MapFileName(n, MinutesOf(tok) + "_" + SecondsOf(tok))) ==
            Seconds(DigitsValue(MinutesOf(tok)) * 60 + DigitsValue(SecondsOf(tok)))
  {
    TimerOfClock(tok);
    ClockSplit(tok);
    TimedFrameInGif(n, MinutesOf(tok) + "_" + SecondsOf(tok));
  }

  /**
   * End to end: when the timer banner's last word `tok` gives a timer, that
   * word is a clock and the frame saved under the timer is labelled with
   * `tok` itself.
   */
  lemma ClockTokenBecomesLabel(n: nat, raw: string, p: string, tok: string, w: string)
    requires raw == p + tok + w
    requires tok != [] && NoSpace(tok) && AllSpace(w) && (p == [] || IsSpace(p[|p| - 1]))
    requires ExtractTime(Ocr.Recognized(raw)).Some?
    ensures IsTimerToken(tok)
    ensures FrameLabel(MapFileName(n, ExtractTime(Ocr.Recognized(raw)).value)) == Some(tok)
  {
    ExtractTimeReadsLastWord(raw, p, tok, w);
    var timer := ExtractTime(Ocr.Recognized(raw)).value;
    assert IsTimerToken(tok) && DigitsValue(SecondsOf(tok)) < 60;
    assert timer == MinutesOf(tok) + "_" + SecondsOf(tok);
    ClockLabel(n, tok);
  }
}
