/**
 * The few pieces of Python's `str` that the capture tool relies on:
 * `isspace`, `strip()`, `split()`, the substring test `in`, `endswith`,
 * `lower()`, `replace` of one character, and `int()` / `str()` between
 * natural numbers and decimal digit strings.
 *
 * Digits are the ASCII digits '0'..'9' and case folding touches only the
 * ASCII letters 'A'..'Z'; whitespace is the full set Python's `str.isspace`
 * accepts.
 */
module Text {

  /** Python's `str.isspace` on one character: the separators of `split()` and `strip()`. */
  predicate IsSpace(c: char) {
    ('\t' <= c <= '\r') || ('\U{1C}' <= c <= '\U{1F}') || c == ' ' ||
    c == '\U{85}' || c == '\U{A0}' || c == '\U{1680}' ||
    ('\U{2000}' <= c <= '\U{200A}') || c == '\U{2028}' || c == '\U{2029}' ||
    c == '\U{202F}' || c == '\U{205F}' || c == '\U{3000}'
  }

  predicate IsDigit(c: char) {
    '0' <= c <= '9'
  }

  predicate AllSpace(s: string) {
    forall i :: 0 <= i < |s| ==> IsSpace(s[i])
  }

  predicate NoSpace(s: string) {
    forall i :: 0 <= i < |s| ==> !IsSpace(s[i])
  }

  predicate AllDigits(s: string) {
    forall i :: 0 <= i < |s| ==> IsDigit(s[i])
  }

  // ---------------------------------------------------------------- strip

  /** Number of whitespace characters that start `s`. */
  function LeadingSpaces(s: string): (n: nat)
    ensures n <= |s|
    ensures forall i :: 0 <= i < n ==> IsSpace(s[i])
    ensures n < |s| ==> !IsSpace(s[n])
  {
    if s != [] && IsSpace(s[0]) then 1 + LeadingSpaces(s[1..]) else 0
  }

  /** Number of whitespace characters that end `s`. */
  function TrailingSpaces(s: string): (n: nat)
    ensures n <= |s|
    ensures forall i :: |s| - n <= i < |s| ==> IsSpace(s[i])
    ensures n < |s| ==> !IsSpace(s[|s| - n - 1])
  {
    if s != [] && IsSpace(s[|s| - 1]) then 1 + TrailingSpaces(s[..|s| - 1]) else 0
  }

  /** `s` without its leading whitespace (Python's `s.lstrip()`). */
  function TrimStart(s: string): string {
    s[LeadingSpaces(s)..]
  }

  /**
   * Python's `s.strip()`: nothing is left exactly of a blank text, and what
   * is left of any other text starts and ends with a non-space.
   */
  function Strip(s: string): (r: string)
    ensures r == [] <==> AllSpace(s)
    ensures r == [] || (!IsSpace(r[0]) && !IsSpace(r[|r| - 1]))
  {
    var t := TrimStart(s);
    TrimStartBlank(s);
    t[..|t| - TrailingSpaces(t)]
  }

  /**
   * `Strip(s)` is the infix `s[i..j]` of `s` between a whitespace prefix and
   * a whitespace suffix, and it has no whitespace left at either end: all the
   * leading and trailing whitespace is cut, and nothing else.
   */
  lemma StripIsInfix(s: string) returns (i: nat, j: nat)
    ensures i <= j <= |s| && Strip(s) == s[i..j]
    ensures AllSpace(s[..i]) && AllSpace(s[j..])
    ensures Strip(s) == [] || (!IsSpace(Strip(s)[0]) && !IsSpace(Strip(s)[|Strip(s)| - 1]))
  {
    i := LeadingSpaces(s);
    var t := s[i..];
    var n := TrailingSpaces(t);
    j := i + |t| - n;
    assert Strip(s) == t[..|t| - n];
    assert t[..|t| - n] == s[i..j];
    forall k | 0 <= k < i ensures IsSpace(s[..i][k]) {
      assert s[..i][k] == s[k];
    }
    forall k | 0 <= k < |s| - j ensures IsSpace(s[j..][k]) {
      assert s[j..][k] == t[|t| - n + k];
    }
  }

  // ---------------------------------------------------------------- split

  /** Length of the run of non-space characters that starts `s`. */
  function WordLength(s: string): (n: nat)
    ensures n <= |s|
    ensures forall i :: 0 <= i < n ==> !IsSpace(s[i])
    ensures n < |s| ==> IsSpace(s[n])
  {
    if s == [] || IsSpace(s[0]) then 0 else 1 + WordLength(s[1..])
  }

  /**
   * Python's `s.split()` with no separator: the maximal runs of non-space
   * characters, in order.
   */
  function Split(s: string): (parts: seq<string>)
    ensures forall k :: 0 <= k < |parts| ==> parts[k] != [] && NoSpace(parts[k])
    ensures parts == [] <==> AllSpace(s)
    decreases |s|
  {
    var t := TrimStart(s);
    TrimStartBlank(s);
    if t == [] then []
    else
      var n := WordLength(t);
      var rest := Split(t[n..]);
      assert n > 0 && NoSpace(t[..n]);
      ConsParts(t[..n], rest);
      [t[..n]] + rest
  }

  /** `lstrip()` leaves nothing exactly of a blank text, and otherwise starts with a non-space. */
  lemma TrimStartBlank(s: string)
    ensures TrimStart(s) == [] <==> AllSpace(s)
    ensures TrimStart(s) != [] ==> !IsSpace(TrimStart(s)[0])
  {
    var n := LeadingSpaces(s);
    if n < |s| {
      assert TrimStart(s)[0] == s[n];
    }
  }

  /** Putting a nonempty word in front of a list of nonempty words. */
  lemma ConsParts(word: string, rest: seq<string>)
    requires word != [] && NoSpace(word)
    requires forall k :: 0 <= k < |rest| ==> rest[k] != [] && NoSpace(rest[k])
    ensures forall k :: 0 <= k < |[word] + rest| ==> ([word] + rest)[k] != [] && NoSpace(([word] + rest)[k])
  {
    forall k | 0 <= k < |[word] + rest|
      ensures ([word] + rest)[k] != [] && NoSpace(([word] + rest)[k])
    {
      if k > 0 {
        assert ([word] + rest)[k] == rest[k - 1];
      }
    }
  }

  /** `LeadingSpaces` is determined by its postconditions. */
  lemma LeadingSpacesIs(s: string, m: nat)
    requires m <= |s| && (forall i :: 0 <= i < m ==> IsSpace(s[i])) && (m < |s| ==> !IsSpace(s[m]))
    ensures LeadingSpaces(s) == m
  {
  }

  /** `WordLength` is determined by its postconditions. */
  lemma WordLengthIs(s: string, m: nat)
    requires m <= |s| && (forall i :: 0 <= i < m ==> !IsSpace(s[i])) && (m < |s| ==> IsSpace(s[m]))
    ensures WordLength(s) == m
  {
  }

  lemma TrimStartOfSpaces(p: string, x: string)
    requires AllSpace(p)
    ensures TrimStart(p + x) == TrimStart(x)
  {
    var m := |p| + LeadingSpaces(x);
    forall i | 0 <= i < m ensures IsSpace((p + x)[i]) {
      if i >= |p| { assert (p + x)[i] == x[i - |p|]; }
    }
    if m < |p + x| { assert (p + x)[m] == x[m - |p|]; }
    LeadingSpacesIs(p + x, m);
    assert (p + x)[m..] == x[LeadingSpaces(x)..];
  }

  lemma TrimStartOfWord(p: string, x: string)
    requires !AllSpace(p)
    ensures TrimStart(p + x) == TrimStart(p) + x
  {
    var m := LeadingSpaces(p);
    assert (p + x)[m] == p[m];
    LeadingSpacesIs(p + x, m);
    assert (p + x)[m..] == p[m..] + x;
  }

  lemma WordLengthStops(q: string, x: string)
    requires !NoSpace(q)
    ensures WordLength(q + x) == WordLength(q) < |q|
  {
    var m := WordLength(q);
    assert (q + x)[m] == q[m];
    WordLengthIs(q + x, m);
  }

  lemma WordLengthOfWord(tok: string, w: string)
    requires NoSpace(tok) && (w == [] || IsSpace(w[0]))
    ensures WordLength(tok + w) == |tok|
  {
    if w != [] {
      assert (tok + w)[|tok|] == w[0];
    }
    WordLengthIs(tok + w, |tok|);
  }

  /** `split()` of text made of one word and trailing whitespace is that word. */
  lemma SplitWord(tok: string, w: string)
    requires tok != [] && NoSpace(tok) && AllSpace(w)
    ensures Split(tok + w) == [tok]
  {
    var t := tok + w;
    LeadingSpacesIs(t, 0);
    assert TrimStart(t) == t;
    WordLengthOfWord(tok, w);
    assert t[..|tok|] == tok;
    assert t[|tok|..] == w;
  }

  /** Leading whitespace does not change `split()` of one word. */
  lemma SplitBlankThenWord(p: string, tok: string, w: string)
    requires AllSpace(p) && tok != [] && NoSpace(tok) && AllSpace(w)
    ensures Split(p + tok + w) == [tok]
  {
    assert p + tok + w == p + (tok + w);
    TrimStartOfSpaces(p, tok + w);
    SplitWord(tok, w);
    assert TrimStart(p + tok + w) == TrimStart(tok + w);
  }

  /**
   * One step of `split()`: when the text, once its leading whitespace is
   * gone, starts with a prefix `q` that contains whitespace, the first part
   * is the first word of `q` and the rest is split from within `q`.
   */
  lemma SplitStep(s: string, q: string, x: string)
    requires TrimStart(s) == q + x && !NoSpace(q) && q != [] && !IsSpace(q[0])
    ensures WordLength(q) < |q|
    ensures Split(s) == [q[..WordLength(q)]] + Split(q[WordLength(q)..] + x)
  {
    WordLengthStops(q, x);
    var n := WordLength(q);
    var t := q + x;
    assert t[..n] == q[..n];
    assert t[n..] == q[n..] + x;
  }

  /** `gaps[0] + words[0] + gaps[1] + … + words[m - 1] + gaps[m]`. */
  function Joined(gaps: seq<string>, words: seq<string>): string
    requires |gaps| == |words| + 1
    decreases |words|
  {
    if words == [] then gaps[0] else gaps[0] + words[0] + Joined(gaps[1..], words[1..])
  }

  /**
   * `s` is the words `words` laid out between the whitespace runs `gaps`:
   * the words are nonempty and free of whitespace, the gaps are whitespace,
   * and the gaps between two words are nonempty.
   */
  predicate Layout(s: string, gaps: seq<string>, words: seq<string>) {
    |gaps| == |words| + 1 &&
    (forall k :: 0 <= k < |words| ==> words[k] != [] && NoSpace(words[k])) &&
    (forall k :: 0 <= k < |gaps| ==> AllSpace(gaps[k])) &&
    (forall k :: 0 < k < |words| ==> gaps[k] != []) &&
    Joined(gaps, words) == s
  }

  /** Whitespace, a word and then nothing or whitespace: `split()` yields the word, then splits the rest. */
  lemma SplitCons(g: string, w: string, rest: string)
    requires AllSpace(g) && w != [] && NoSpace(w) && (rest == [] || IsSpace(rest[0]))
    ensures Split(g + w + rest) == [w] + Split(rest)
  {
    var t := w + rest;
    assert g + w + rest == g + t;
    TrimStartOfSpaces(g, t);
    assert t[0] == w[0];
    LeadingSpacesIs(t, 0);
    WordLengthOfWord(w, rest);
    assert t[..|w|] == w && t[|w|..] == rest;
  }

  /** The tail of a layout is a layout of the tail of the text. */
  lemma LayoutTail(s: string, gaps: seq<string>, words: seq<string>)
    requires Layout(s, gaps, words) && words != []
    ensures var rest := Joined(gaps[1..], words[1..]);
            s == gaps[0] + words[0] + rest &&
            (rest == [] || IsSpace(rest[0])) &&
            Layout(rest, gaps[1..], words[1..])
  {
    var rest := Joined(gaps[1..], words[1..]);
    if |words| > 1 {
      assert rest == gaps[1] + words[1] + Joined(gaps[2..], words[2..]);
      assert rest[0] == gaps[1][0];
    }
    assert forall k :: 0 < k < |words[1..]| ==> gaps[1..][k] == gaps[k + 1];
  }

  /** `split()` of words laid out between whitespace gives back exactly those words. */
  lemma {:induction false} SplitJoined(s: string, gaps: seq<string>, words: seq<string>)
    requires Layout(s, gaps, words)
    ensures Split(s) == words
    decreases |words|
  {
    if words != [] {
      LayoutTail(s, gaps, words);
      var rest := Joined(gaps[1..], words[1..]);
      SplitJoined(rest, gaps[1..], words[1..]);
      SplitCons(gaps[0], words[0], rest);
      assert [words[0]] + words[1..] == words;
    }
  }

  /**
   * Every text is the words `split()` returns laid out between whitespace
   * gaps, the first gap being the text's leading whitespace.
   */
  lemma {:induction false} SplitLayout(s: string) returns (gaps: seq<string>)
    ensures Layout(s, gaps, Split(s))
    ensures gaps[0] == s[..LeadingSpaces(s)]
    decreases |s|
  {
    if AllSpace(s) {
      gaps := [s];
      assert s[..LeadingSpaces(s)] == s;
    } else {
      var g, w, rest := SplitFirst(s);
      var tail := SplitLayout(rest);
      gaps := [g] + tail;
      LayoutCons(s, g, w, rest, tail, Split(rest));
    }
  }

  /** A text that is not blank is its leading whitespace, its first word and a rest that is empty or starts with whitespace. */
  lemma FirstWord(s: string) returns (g: string, w: string, rest: string)
    requires !AllSpace(s)
    ensures s == g + w + rest && g == s[..LeadingSpaces(s)] && AllSpace(g)
    ensures w != [] && NoSpace(w) && (rest == [] || IsSpace(rest[0])) && |rest| < |s|
  {
    var i := LeadingSpaces(s);
    var t := TrimStart(s);
    TrimStartBlank(s);
    var n := WordLength(t);
    g, w, rest := s[..i], t[..n], t[n..];
    assert AllSpace(g) by {
      forall k | 0 <= k < i ensures IsSpace(g[k]) {
        assert g[k] == s[k];
      }
    }
    assert NoSpace(w) by {
      forall k | 0 <= k < n ensures !IsSpace(w[k]) {
        assert w[k] == t[k];
      }
    }
    assert rest != [] ==> rest[0] == t[n];
    WordThenRest(s, i, t, n);
  }

  /** Cutting `s` at `i` and its tail `t` at `n` gives back `s`. */
  lemma WordThenRest(s: string, i: nat, t: string, n: nat)
    requires i <= |s| && t == s[i..] && n <= |t|
    ensures s == s[..i] + t[..n] + t[n..]
  {
    assert t == t[..n] + t[n..];
    assert s == s[..i] + t;
  }

  /** `split()` of a text that is not blank: its first word, then `split()` of the rest. */
  lemma SplitFirst(s: string) returns (g: string, w: string, rest: string)
    requires !AllSpace(s)
    ensures s == g + w + rest && g == s[..LeadingSpaces(s)] && AllSpace(g)
    ensures w != [] && NoSpace(w) && (rest == [] || IsSpace(rest[0])) && |rest| < |s|
    ensures Split(s) == [w] + Split(rest)
  {
    g, w, rest := FirstWord(s);
    SplitCons(g, w, rest);
  }

  /** Putting a gap and a word in front of a layout of the rest of the text. */
  lemma LayoutCons(s: string, g: string, w: string, rest: string, tail: seq<string>, words: seq<string>)
    requires s == g + w + rest && AllSpace(g) && w != [] && NoSpace(w)
    requires Layout(rest, tail, words) && (rest == [] || IsSpace(rest[0]))
    requires tail[0] == rest[..LeadingSpaces(rest)]
    ensures Layout(s, [g] + tail, [w] + words)
  {
    var gaps, ws := [g] + tail, [w] + words;
    assert gaps[1..] == tail && ws[1..] == words;
    if words != [] {
      assert Joined(tail, words) == tail[0] + words[0] + Joined(tail[1..], words[1..]);
      assert rest != [];
      assert tail[0] != [];
    }
    forall k | 0 <= k < |ws| ensures ws[k] != [] && NoSpace(ws[k]) {
      if k > 0 { assert ws[k] == words[k - 1]; }
    }
    forall k | 0 <= k < |gaps| ensures AllSpace(gaps[k]) {
      if k > 0 { assert gaps[k] == tail[k - 1]; }
    }
    forall k | 0 < k < |ws| ensures gaps[k] != [] {
      assert gaps[k] == tail[k - 1];
    }
  }

  /**
   * `split()` characterised: it returns `words` exactly when the text is
   * those words laid out between whitespace gaps.
   */
  lemma SplitIff(s: string, words: seq<string>)
    ensures Split(s) == words <==> exists gaps :: Layout(s, gaps, words)
  {
    if Split(s) == words {
      var gaps := SplitLayout(s);
    }
    if exists gaps :: Layout(s, gaps, words) {
      var gaps :| Layout(s, gaps, words);
      SplitJoined(s, gaps, words);
    }
  }

  /**
   * The last part `split()` returns is the last word: whenever `s` is some
   * text `p` that is empty or ends in whitespace, then a word `tok`, then
   * whitespace only, `tok` is the last element of `Split(s)`.
   */
  lemma {:induction false} SplitLast(p: string, tok: string, w: string)
    requires tok != [] && NoSpace(tok) && AllSpace(w)
    requires p == [] || IsSpace(p[|p| - 1])
    ensures Split(p + tok + w) != [] && Split(p + tok + w)[|Split(p + tok + w)| - 1] == tok
    decreases |p|, 1
  {
    if AllSpace(p) {
      SplitBlankThenWord(p, tok, w);
      assert Split(p + tok + w)[0] == tok;
    } else {
      SplitLastAfterWord(p, tok, w);
    }
  }

  /** The inductive step of `SplitLast`: a text `p` that is not blank contributes its first word, then the rest. */
  lemma {:induction false} SplitLastAfterWord(p: string, tok: string, w: string)
    requires tok != [] && NoSpace(tok) && AllSpace(w)
    requires !AllSpace(p) && IsSpace(p[|p| - 1])
    ensures Split(p + tok + w) != [] && Split(p + tok + w)[|Split(p + tok + w)| - 1] == tok
    decreases |p|, 0
  {
    var first, q' := SplitFirstWord(p, tok, w);
    SplitLast(q', tok, w);
    LastOfCons(Split(p + tok + w), first, Split(q' + tok + w), tok);
  }

  lemma LastOfCons(whole: seq<string>, first: string, rest: seq<string>, x: string)
    requires whole == [first] + rest && rest != [] && rest[|rest| - 1] == x
    ensures whole != [] && whole[|whole| - 1] == x
  {
    assert whole[|whole| - 1] == rest[|rest| - 1];
  }

  /**
   * When `p` is not blank and ends in whitespace, `split()` of `p + x` is the
   * first word of `p` followed by `split()` of a shorter such text `q'` then `x`.
   */
  lemma SplitFirstWord(p: string, tok: string, w: string) returns (first: string, q': string)
    requires !AllSpace(p) && IsSpace(p[|p| - 1])
    ensures |q'| < |p| && q' != [] && IsSpace(q'[|q'| - 1])
    ensures Split(p + tok + w) == [first] + Split(q' + tok + w)
  {
    var x := tok + w;
    TrimStartOfWord(p, x);
    var q := TrimStart(p);
    assert q != [] && q[|q| - 1] == p[|p| - 1] && !IsSpace(q[0]) by {
      assert q == p[LeadingSpaces(p)..];
    }
    SplitStep(p + x, q, x);
    first := q[..WordLength(q)];
    q' := q[WordLength(q)..];
    Assoc(p, tok, w);
    Assoc(q', tok, w);
  }

  lemma Assoc(a: string, b: string, c: string)
    ensures a + b + c == a + (b + c)
  {
  }

  /** Whitespace cut from the ends of `p + tok + w` never reaches into the word `tok`. */
  lemma InfixAroundWord(s: string, i: nat, j: nat, p: string, tok: string, w: string)
    requires s == p + tok + w && tok != [] && NoSpace(tok)
    requires i <= j <= |s| && AllSpace(s[..i]) && AllSpace(s[j..])
    ensures i <= |p| && |p| + |tok| <= j
  {
    assert s[|p|] == tok[0];
    assert s[|p| + |tok| - 1] == tok[|tok| - 1];
  }

  /** Cutting whitespace off the ends of `p + tok + w` keeps `tok` the last word. */
  lemma SplitLastOfInfix(s: string, i: nat, j: nat, p: string, tok: string, w: string)
    requires s == p + tok + w && tok != [] && NoSpace(tok) && AllSpace(w)
    requires p == [] || IsSpace(p[|p| - 1])
    requires i <= j <= |s| && AllSpace(s[..i]) && AllSpace(s[j..])
    ensures Split(s[i..j]) != [] && Split(s[i..j])[|Split(s[i..j])| - 1] == tok
  {
    var p', w' := InfixPieces(s, i, j, p, tok, w);
    SplitLast(p', tok, w');
  }

  /** The infix `s[i..j]` is a shorter `p'`, the word `tok`, and a shorter whitespace `w'`. */
  lemma InfixPieces(s: string, i: nat, j: nat, p: string, tok: string, w: string) returns (p': string, w': string)
    requires s == p + tok + w && tok != [] && NoSpace(tok) && AllSpace(w)
    requires p == [] || IsSpace(p[|p| - 1])
    requires i <= j <= |s| && AllSpace(s[..i]) && AllSpace(s[j..])
    ensures s[i..j] == p' + tok + w' && AllSpace(w')
    ensures p' == [] || IsSpace(p'[|p'| - 1])
  {
    InfixAroundWord(s, i, j, p, tok, w);
    var e := |p| + |tok|;
    p', w' := s[i..|p|], s[e..j];
    assert s[i..j] == p' + tok + w';
    assert p' == p[i..];
    assert AllSpace(w') by {
      forall k | 0 <= k < |w'| ensures IsSpace(w'[k]) {
        assert w'[k] == s[e + k] == w[k];
      }
    }
  }

  /** The last part `split()` returns for the stripped text is still the last word. */
  lemma StripSplitLast(p: string, tok: string, w: string)
    requires tok != [] && NoSpace(tok) && AllSpace(w)
    requires p == [] || IsSpace(p[|p| - 1])
    ensures Split(Strip(p + tok + w)) != []
    ensures Split(Strip(p + tok + w))[|Split(Strip(p + tok + w))| - 1] == tok
  {
    var i, j := StripIsInfix(p + tok + w);
    SplitLastOfInfix(p + tok + w, i, j, p, tok, w);
  }

  /** Every text that is not all whitespace has a last word. */
  lemma LastWordExists(s: string) returns (p: string, tok: string, w: string)
    requires !AllSpace(s)
    ensures s == p + tok + w
    ensures tok != [] && NoSpace(tok) && AllSpace(w)
    ensures p == [] || IsSpace(p[|p| - 1])
  {
    var body := s[..|s| - TrailingSpaces(s)];
    w := s[|body|..];
    assert body != [];
    var i := |body|;
    while i > 0 && !IsSpace(body[i - 1])
      invariant 0 <= i <= |body|
      invariant i == |body| || !IsSpace(body[i])
      invariant NoSpace(body[i..])
    {
      i := i - 1;
    }
    p, tok := body[..i], body[i..];
    assert s == body + w;
    assert body == p + tok;
  }

  // ---------------------------------------------------------- substrings

  /** Python's `sub in s`. */
  predicate Contains(s: string, sub: string) {
    exists k :: 0 <= k <= |s| && sub <= s[k..]
  }

  /** A text in which the first character of `sub` never occurs does not contain `sub`. */
  lemma NotContainsFirstChar(s: string, sub: string)
    requires sub != [] && sub[0] !in s
    ensures !Contains(s, sub)
  {
  }

  /** Python's `s.endswith(suffix)`. */
  predicate EndsWith(s: string, suffix: string) {
    |suffix| <= |s| && s[|s| - |suffix|..] == suffix
  }

  /** A text that contains a word which starts with a non-space is not all whitespace. */
  lemma ContainsNotBlank(s: string, sub: string)
    requires Contains(s, sub) && sub != [] && !IsSpace(sub[0])
    ensures !AllSpace(s)
  {
    var k :| 0 <= k <= |s| && sub <= s[k..];
    assert s[k..][0] == s[k];
  }

  /**
   * Cutting whitespace off both ends of a text does not change whether it
   * contains a word that begins and ends with a non-space character.
   */
  lemma ContainsInfix(s: string, i: nat, j: nat, sub: string)
    requires i <= j <= |s| && AllSpace(s[..i]) && AllSpace(s[j..])
    requires sub != [] && !IsSpace(sub[0]) && !IsSpace(sub[|sub| - 1])
    ensures Contains(s[i..j], sub) <==> Contains(s, sub)
  {
    if Contains(s[i..j], sub) {
      var k :| 0 <= k <= |s[i..j]| && sub <= s[i..j][k..];
      assert s[i..j][k..] <= s[i + k..];
    }
    if Contains(s, sub) {
      var k :| 0 <= k <= |s| && sub <= s[k..];
      ContainsWithin(s, i, j, sub, k);
    }
  }

  /** An occurrence of such a word in `s` lies between the whitespace prefix and suffix. */
  lemma ContainsWithin(s: string, i: nat, j: nat, sub: string, k: nat)
    requires i <= j <= |s| && AllSpace(s[..i]) && AllSpace(s[j..])
    requires sub != [] && !IsSpace(sub[0]) && !IsSpace(sub[|sub| - 1])
    requires k <= |s| && sub <= s[k..]
    ensures i <= k && k + |sub| <= j && sub <= s[i..j][k - i..]
  {
    assert forall x :: 0 <= x < i ==> s[..i][x] == s[x];
    assert forall x :: j <= x < |s| ==> s[j..][x - j] == s[x];
    assert s[k] == sub[0];
    var e := k + |sub| - 1;
    assert s[e] == sub[|sub| - 1];
    assert s[i..j][k - i..][..|sub|] == s[k..][..|sub|];
  }

  /** `strip()` does not change whether a text contains such a word. */
  lemma StripKeepsContains(s: string, sub: string)
    requires sub != [] && !IsSpace(sub[0]) && !IsSpace(sub[|sub| - 1])
    ensures Contains(Strip(s), sub) <==> Contains(s, sub)
  {
    var i, j := StripIsInfix(s);
    ContainsInfix(s, i, j, sub);
  }

  // ------------------------------------------------------- lower, replace

  /** Python's `lower()` on the ASCII letters; every other character is kept. */
  function LowerChar(c: char): char {
    if 'A' <= c <= 'Z' then (c as int + 32) as char else c
  }

  /**
   * Python's `s.lower()`, character by character: no ASCII capital is left,
   * each one becomes its small letter and every other character is kept.
   */
  function Lower(s: string): (r: string)
    ensures |r| == |s|
    ensures forall i :: 0 <= i < |s| ==> !('A' <= r[i] <= 'Z')
    ensures forall i :: 0 <= i < |s| && 'A' <= s[i] <= 'Z' ==> r[i] as int == s[i] as int + 32
    ensures forall i :: 0 <= i < |s| && !('A' <= s[i] <= 'Z') ==> r[i] == s[i]
  {
    seq(|s|, i requires 0 <= i < |s| => LowerChar(s[i]))
  }

  /** Lower-casing keeps whitespace exactly where it was. */
  lemma LowerKeepsSpace(s: string)
    ensures forall i :: 0 <= i < |s| ==> (IsSpace(Lower(s)[i]) <==> IsSpace(s[i]))
  {
  }

  /** Lowering twice is lowering once. */
  lemma LowerIdempotent(s: string)
    ensures Lower(Lower(s)) == Lower(s)
  {
  }

  /**
   * Python's `s.replace(old, new)` for single characters: every `from`
   * becomes `to`, every other character is kept, and no `from` is left.
   */
  function ReplaceChar(s: string, from: char, to: char): (r: string)
    ensures |r| == |s|
    ensures forall i :: 0 <= i < |s| && s[i] == from ==> r[i] == to
    ensures forall i :: 0 <= i < |s| && s[i] != from ==> r[i] == s[i]
    ensures from != to ==> from !in r
  {
    seq(|s|, i requires 0 <= i < |s| => if s[i] == from then to else s[i])
  }

  // ------------------------------------------------------ decimal numbers

  function DigitValue(c: char): nat
    requires IsDigit(c)
  {
    c as int - '0' as int
  }

  function DigitChar(d: nat): char
    requires d < 10
  {
    ('0' as int + d) as char
  }

  /** `10` to the power `n`. */
  function Pow10(n: nat): (p: nat)
    ensures p >= 1
  {
    if n == 0 then 1 else 10 * Pow10(n - 1)
  }

  /**
   * Python's `int(s)` for a string of ASCII digits (leading zeros allowed):
   * a number of `|s|` digits is below `10^|s|`.
   */
  function DigitsValue(s: string): (v: nat)
    requires AllDigits(s)
    ensures v < Pow10(|s|)
  {
    if s == [] then 0 else DigitsValue(s[..|s| - 1]) * 10 + DigitValue(s[|s| - 1])
  }

  /** Leading zeros do not change the value `int()` reads. */
  lemma {:induction false} DigitsValueLeadingZero(s: string)
    requires AllDigits(s)
    ensures AllDigits("0" + s) && DigitsValue("0" + s) == DigitsValue(s)
    decreases |s|
  {
    if s != [] {
      var init := s[..|s| - 1];
      assert ("0" + s)[..|s|] == "0" + init;
      DigitsValueLeadingZero(init);
    }
  }

  /**
   * Python's `str(n)` for a natural number: decimal digits with no leading
   * zero, which `int()` reads back as `n`.
   */
  function NatToString(n: nat): (r: string)
    ensures r != [] && AllDigits(r) && DigitsValue(r) == n
    ensures |r| == 1 || r[0] != '0'
  {
    if n < 10 then [DigitChar(n)]
    else
      var r := NatToString(n / 10) + [DigitChar(n % 10)];
      assert r[..|r| - 1] == NatToString(n / 10);
      r
  }

  /** Length of the run of digits that starts `s`. */
  function LeadingDigits(s: string): (n: nat)
    ensures n <= |s| && AllDigits(s[..n]) && (n < |s| ==> !IsDigit(s[n]))
  {
    if s == [] || !IsDigit(s[0]) then 0 else 1 + LeadingDigits(s[1..])
  }

  /** A run of digits followed by a non-digit (or nothing) is read in full. */
  lemma LeadingDigitsOf(d: string, x: string)
    requires AllDigits(d) && (x == [] || !IsDigit(x[0]))
    ensures LeadingDigits(d + x) == |d|
    decreases |d|
  {
    if d != [] {
      assert (d + x)[1..] == d[1..] + x;
      LeadingDigitsOf(d[1..], x);
    }
  }

}
