/**
 * The chat detector (`extract_chat_status`): the chat region shows a
 * channel label ("Team" or "All") exactly while the player is typing.
 */
module ChatDetector {
  import opened Text
  import opened Ocr

  /** `word` occurs in `s` at position `k` when `s` is read with ASCII upper case folded to lower case. */
  predicate OccursIgnoringCase(s: string, k: int, word: string) {
    0 <= k && k + |word| <= |s| && forall i :: 0 <= i < |word| ==> LowerChar(s[k + i]) == word[i]
  }

  ghost predicate ContainsIgnoringCase(s: string, word: string) {
    exists k :: OccursIgnoringCase(s, k, word)
  }

  /**
   * `extract_chat_status`: chat is active exactly when the recognised text
   * contains "team" or "all" in any mix of case; an OCR failure counts as
   * no chat.
   */
  function ExtractChatStatus(ocr: OcrOutput): (active: bool)
    ensures active <==>
              ocr.Recognized? && (ContainsIgnoringCase(ocr.text, "team") || ContainsIgnoringCase(ocr.text, "all"))
  {
    match ocr
    case OcrError => false
    case Recognized(raw) =>
      var chatText := Lower(Strip(raw));
      LowerStripContains(raw, "team");
      LowerStripContains(raw, "all");
      Contains(chatText, "team") || Contains(chatText, "all")
  }

  /** Searching the lower-cased text for a lower-case word is a case-insensitive search. */
  lemma LowerContains(raw: string, word: string)
    ensures Contains(Lower(raw), word) <==> ContainsIgnoringCase(raw, word)
  {
    var low := Lower(raw);
    if Contains(low, word) {
      var k :| 0 <= k <= |low| && word <= low[k..];
      assert OccursIgnoringCase(raw, k, word) by {
        forall n | 0 <= n < |word| ensures LowerChar(raw[k + n]) == word[n] {
          assert low[k..][n] == low[k + n];
        }
      }
    }
    if ContainsIgnoringCase(raw, word) {
      var k :| OccursIgnoringCase(raw, k, word);
      assert word <= low[k..];
    }
  }

  /**
   * Lower-casing keeps whitespace, so the lower-cased stripped text is the
   * infix of the lower-cased text between its leading and trailing
   * whitespace, with no whitespace left at either end.
   */
  lemma LowerStripIsInfix(raw: string) returns (i: nat, j: nat)
    ensures i <= j <= |raw| && Lower(Strip(raw)) == Lower(raw)[i..j]
    ensures AllSpace(Lower(raw)[..i]) && AllSpace(Lower(raw)[j..])
    ensures var t := Lower(Strip(raw)); t == [] || (!IsSpace(t[0]) && !IsSpace(t[|t| - 1]))
  {
    i, j := StripIsInfix(raw);
    var low := Lower(raw);
    LowerSlice(raw, i, j);
    LowerSpaces(raw, 0, i);
    LowerSpaces(raw, j, |raw|);
    assert low[0..i] == low[..i] && low[j..|raw|] == low[j..];
    LowerEnds(Strip(raw));
  }

  /** Lower-casing a slice is slicing the lower-cased text. */
  lemma LowerSlice(s: string, i: nat, j: nat)
    requires i <= j <= |s|
    ensures Lower(s[i..j]) == Lower(s)[i..j]
  {
  }

  /** A whitespace slice stays whitespace once lower-cased. */
  lemma LowerSpaces(s: string, i: nat, j: nat)
    requires i <= j <= |s| && AllSpace(s[i..j])
    ensures AllSpace(Lower(s)[i..j])
  {
    LowerSlice(s, i, j);
  }

  /** Lower-casing keeps a non-space at either end of a text. */
  lemma LowerEnds(t: string)
    requires t == [] || (!IsSpace(t[0]) && !IsSpace(t[|t| - 1]))
    ensures var u := Lower(t); u == [] || (!IsSpace(u[0]) && !IsSpace(u[|u| - 1]))
  {
  }

  /**
   * Lower-casing the stripped text and searching it for a word that begins
   * and ends with a non-space is a case-insensitive search of the raw text.
   */
  lemma LowerStripContains(raw: string, word: string)
    requires word != [] && !IsSpace(word[0]) && !IsSpace(word[|word| - 1])
    ensures Contains(Lower(Strip(raw)), word) <==> ContainsIgnoringCase(raw, word)
  {
    var i, j := LowerStripIsInfix(raw);
    ContainsInfix(Lower(raw), i, j, word);
    LowerContains(raw, word);
  }

  /** Worked example: the team channel label, capitalised as the game shows it. */
  lemma ChatExampleTeam(s: string)
    requires s == "Team"
    ensures ExtractChatStatus(Recognized(s))
  {
    assert OccursIgnoringCase(s, 0, "team");
  }

  /** Worked example: the all-chat label in upper case. */
  lemma ChatExampleAll(s: string)
    requires s == "ALL"
    ensures ExtractChatStatus(Recognized(s))
  {
    assert OccursIgnoringCase(s, 0, "all");
  }

  /** Worked example: text without either label. */
  lemma ChatExampleNone(s: string)
    requires s == "nothing relevant"
    ensures !ExtractChatStatus(Recognized(s))
  {
    forall k | 0 <= k <= |s| - 4 ensures !OccursIgnoringCase(s, k, "team") {
      var i, j := 0, 1;
      assert LowerChar(s[k + i]) != "team"[i] || LowerChar(s[k + j]) != "team"[j];
    }
    forall k | 0 <= k <= |s| - 3 ensures !OccursIgnoringCase(s, k, "all") {
      var i, j := 0, 1;
      assert LowerChar(s[k + i]) != "all"[i] || LowerChar(s[k + j]) != "all"[j];
    }
  }
}
