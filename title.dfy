/**
 * The default-title heuristic of the voice-note editor: the first sentence of the transcript
 * when it is short enough, otherwise its first few space-separated words, with an ellipsis
 * when words were cut off.
 */
module TitleHeuristic {
  import opened Optional
  import opened JsText

  /** Longest first sentence, in UTF-16 code units, that is used as a title. */
  const MaxSentenceLength := 100

  /** Hard cap on the number of words in a word-based title. */
  const MaxTitleWords := 8

  predicate IsTerminator(c: char) {
    c == '.' || c == '!' || c == '?'
  }

  /**
   * Position i can close the group of `^(.*?[.!?])\s`: a terminator there, white space right
   * after it, and no line terminator before it (`.` does not match one).
   */
  predicate EndsSentence(text: string, i: int) {
    && 0 <= i && i + 1 < |text|
    && IsTerminator(text[i]) && IsWhiteSpace(text[i + 1])
    && forall j :: 0 <= j < i ==> !IsLineTerminator(text[j])
  }

  /** The lazy `.*?` stops at the first position that ends a sentence. */
  predicate IsFirstSentenceEnd(text: string, e: int) {
    EndsSentence(text, e) && forall j :: 0 <= j < e ==> !EndsSentence(text, j)
  }

  /** The regular-expression scan from position i, which `.*?` has already passed. */
  function SentenceEndFrom(text: string, i: nat): (r: Option<nat>)
    requires i <= |text|
    requires forall j :: 0 <= j < i ==> !IsLineTerminator(text[j])
    ensures r.Some? ==> i <= r.value && EndsSentence(text, r.value)
    ensures r.Some? ==> forall j :: i <= j < r.value ==> !EndsSentence(text, j)
    ensures r.None? ==> forall j :: i <= j ==> !EndsSentence(text, j)
    decreases |text| - i
  {
    if i + 1 >= |text| then None
    else if IsTerminator(text[i]) && IsWhiteSpace(text[i + 1]) then Some(i)
    else if IsLineTerminator(text[i]) then None
    else SentenceEndFrom(text, i + 1)
  }

  /** Where `text.match(/^(.*?[.!?])\s/)` ends its first group, if it matches. */
  function FirstSentenceEnd(text: string): (r: Option<nat>)
    ensures r.Some? <==> exists e :: IsFirstSentenceEnd(text, e)
    ensures r.Some? ==> IsFirstSentenceEnd(text, r.value)
  {
    var r := SentenceEndFrom(text, 0);
    assert r.Some? ==> IsFirstSentenceEnd(text, r.value);
    r
  }

  /** `titleWordCount`: a word budget chosen by the size band of the piece count n. */
  function WordBudget(n: nat): (k: nat)
    ensures k <= n && k <= 6
    ensures n >= 1 ==> k >= 1
    ensures n > k <==> n > 3
  {
    var band := if n <= 10 then Min(3, n)
                else if n <= 20 then Min(4, n)
                else if n <= 50 then Min(5, n)
                else Min(6, n);
    Min(band, MaxTitleWords)
  }

  function Min(a: int, b: int): int {
    if a <= b then a else b
  }

  /** The word-based title: the first WordBudget pieces of `split(' ')`, plus "..." if any were cut. */
  function WordTitle(text: string): (r: string)
    ensures |Split(text)| <= 3 ==> r == text
    ensures |Split(text)| > 3 ==> |r| >= 3 && r[|r| - 3..] == "..."
  {
    JoinSplit(text);
    var words := Split(text);
    var k := WordBudget(|words|);
    assert |words| <= 3 ==> words[..k] == words;
    Join(words[..k]) + (if |words| > k then "..." else "")
  }

  /** `generateTitleFromTranscript`. */
  function GenerateTitle(text: string): (title: string)
    ensures text == "" <==> title == ""
  {
    if text == "" then ""
    else
      var m := FirstSentenceEnd(text);
      if m.Some? && Utf16Length(text[..m.value + 1]) <= MaxSentenceLength then
        text[..m.value + 1]
      else
        WordTitleNonEmpty(text);
        WordTitle(text)
  }

  /** A non-empty text never has an empty word-based title. */
  lemma WordTitleNonEmpty(text: string)
    requires text != ""
    ensures WordTitle(text) != ""
  {
    var words := Split(text);
    var k := WordBudget(|words|);
    if |words| <= k {
      JoinSplit(text);
      assert words[..k] == words;
    }
  }

  /**
   * First-sentence rule: when the first sentence end e gives a prefix of at most 100 code units,
   * the title is exactly that prefix, which ends in a terminator and is strictly shorter than the
   * text (the white space after it is never part of the title).
   */
  lemma SentenceRule(text: string, e: nat)
    requires IsFirstSentenceEnd(text, e)
    requires Utf16Length(text[..e + 1]) <= MaxSentenceLength
    ensures GenerateTitle(text) == text[..e + 1]
    ensures |GenerateTitle(text)| < |text| && IsTerminator(GenerateTitle(text)[e])
  {
    assert FirstSentenceEnd(text) == Some(e);
  }

  /** A terminator that is the last character of the text never ends the first sentence. */
  lemma TrailingTerminatorIgnored(text: string)
    requires text != [] && IsTerminator(text[|text| - 1])
    ensures !EndsSentence(text, |text| - 1)
  {
  }

  /**
   * Word rule: without a short first sentence, the title keeps min(k, n) of the n pieces of
   * `split(' ')`, with k = 3, 4, 5 or 6 by size band, so never more than 6 words (the cap of 8
   * never binds). Without truncation the title is the text itself; with truncation it is a
   * prefix of the text, ending just before a space, followed by "...".
   */
  lemma {:induction false} WordRule(text: string)
    requires text != ""
    requires !exists e :: IsFirstSentenceEnd(text, e) && Utf16Length(text[..e + 1]) <= MaxSentenceLength
    ensures var words := Split(text);
            var k := WordBudget(|words|);
            && 1 <= k <= 6 && k < MaxTitleWords
            && (|words| <= 3 ==> GenerateTitle(text) == text)
            && (|words| > 3 ==>
                  && GenerateTitle(text) == Join(words[..k]) + "..."
                  && Join(words[..k]) + " " <= text
                  && Split(Join(words[..k])) == words[..k])
  {
    var words := Split(text);
    var k := WordBudget(|words|);
    var m := FirstSentenceEnd(text);
    assert !(m.Some? && Utf16Length(text[..m.value + 1]) <= MaxSentenceLength);
    assert GenerateTitle(text) == WordTitle(text);
    if |words| > 3 {
      JoinSplit(text);
      JoinAt(words, k);
      SplitJoin(words[..k]);
    }
  }

  /** A transcript whose short first sentence becomes the title. */
  lemma HelloWorldExample()
    ensures GenerateTitle("Hello world. This is a test") == "Hello world."
  {
    var text := "Hello world. This is a test";
    assert EndsSentence(text, 11);
    forall j | 0 <= j < 11 ensures !EndsSentence(text, j) {
      assert !IsTerminator(text[j]);
    }
    SentenceRule(text, 11);
  }
}
