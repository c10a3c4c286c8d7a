/** `extract_words` (advertools/extract.py): occurrences of chosen words, either as whole
    words or inside longer whitespace-free runs. The texts and the words are lower-cased,
    and one regular expression is built as an alternation of one branch per word. */
module Words {
  import opened Wrappers
  import opened Seqs
  import opened Strings
  import opened Extraction
  import opened Scanning

  /** One branch of the alternation: `r'\b' + word + r'\b'` for whole words,
      `r'\S*' + word + r'\S*'` for words inside longer runs. */
  function Branch(entireWordsOnly: bool, word: string): string {
    if entireWordsOnly then "\\b" + word + "\\b" else "\\S*" + word + "\\S*"
  }

  /** The word a branch was built from. */
  function Unbranch(entireWordsOnly: bool, branch: string): string {
    var k := if entireWordsOnly then 2 else 3;
    if |branch| >= 2 * k then branch[k..|branch| - k] else branch
  }

  /** `'|'.join(regex)`: the pattern `extract_words` compiles. */
  function WordPattern(entireWordsOnly: bool, words: seq<string>): string {
    Join('|', Map((word: string) => Branch(entireWordsOnly, word), words))
  }

  /** Reads the words back from an alternation pattern. */
  function ParseWordPattern(entireWordsOnly: bool, pattern: string): seq<string> {
    Map((branch: string) => Unbranch(entireWordsOnly, branch), Split('|', pattern))
  }

  /** The pattern keeps the list of words, in order, as long as there is at least one
      word and no word holds a `|`. */
  lemma WordPatternParses(entireWordsOnly: bool, words: seq<string>)
    requires |words| >= 1
    requires forall i :: 0 <= i < |words| ==> '|' !in words[i]
    ensures ParseWordPattern(entireWordsOnly, WordPattern(entireWordsOnly, words)) == words
  {
    var branches := Map((word: string) => Branch(entireWordsOnly, word), words);
    forall i | 0 <= i < |words| ensures '|' !in branches[i] {
      var b := branches[i];
      if entireWordsOnly {
        assert b == "\\b" + words[i] + "\\b";
      } else {
        assert b == "\\S*" + words[i] + "\\S*";
      }
    }
    SplitJoin('|', branches);
  }

  /** `extract_words(text_list, words_to_extract, entire_words_only)`. A single word is
      a one-element list; the records are the lower-cased texts (`extract` lower-cases
      them once more, which changes nothing), the words are lower-cased before the
      pattern is built. */
  function ExtractWords(texts: Texts, words: Texts, entireWordsOnly: bool, findall: FindAll): (r: Result<Summary<string>, Error>)
    ensures r.Failure? <==> |Iterated(texts)| == 0
    ensures r.Failure? ==> r.error == ZeroDivisionError
    ensures r.Success? ==> IsSummaryOf(r.value, r.value.lists, |Iterated(texts)|)
    ensures r.Success? ==>
              r.value.lists == LowerMatches(findall, WordPattern(entireWordsOnly, Map(Lower, AsList(words))), Iterated(texts))
  {
    var records := Map(Lower, Iterated(texts));
    var pattern := WordPattern(entireWordsOnly, Map(Lower, AsList(words)));
    var r := Extract(TextList(records), (t: string) => findall(pattern, t), None);
    forall i | 0 <= i < |records| ensures Lower(records[i]) == Lower(Iterated(texts)[i]) {
      LowerIsLower(Iterated(texts)[i]);
    }
    r
  }

  /** Non-empty words without whitespace: the words the substring scan is modelled for. */
  predicate IsWordList(words: seq<string>) {
    forall i :: 0 <= i < |words| ==> |words[i]| > 0 && forall k :: 0 <= k < |words[i]| ==> !IsSpace(words[i][k])
  }

  /** Some word occurs at position `a` of `text`. */
  predicate WordAt(words: seq<string>, text: string, a: nat) {
    exists i :: 0 <= i < |words| && OccursAt(text, a, words[i])
  }

  function WordWitness(words: seq<string>): Witness {
    (text: string, a: nat) => WordAt(words, text, a)
  }

  /** A token contains one of the words. */
  predicate ContainsWord(words: seq<string>, token: string) {
    exists a :: 0 <= a < |token| && WordAt(words, token, a)
  }

  function ContainsWordOf(words: seq<string>): string -> bool {
    (token: string) => ContainsWord(words, token)
  }

  /** `findall` of the substring pattern of `words` on `text`: a match is a run that has a
      branch word starting in it, taken from the position the scan reached to the end of
      the run. */
  function SubstringMatches(words: seq<string>, text: string): seq<string> {
    SpanTexts(text, Spans(WordWitness(words), text, 0))
  }

  /** A word starting inside the run at `s` occurs in its token. */
  lemma WitnessInToken(words: seq<string>, text: string, s: nat, a: nat)
    requires IsWordList(words)
    requires s < |text| && s <= a < RunEnd(text, s) && WordAt(words, text, a)
    ensures ContainsWord(words, text[s..RunEnd(text, s)])
  {
    var e := RunEnd(text, s);
    var token := text[s..e];
    var i :| 0 <= i < |words| && OccursAt(text, a, words[i]);
    assert forall k :: a <= k < a + |words[i]| ==> text[k] == words[i][k - a];
    InsideRun(text, s, a, a + |words[i]|);
    assert token[a - s..a - s + |words[i]|] == words[i];
    assert WordAt(words, token, a - s);
  }

  /** A word in the token of the run at `s` starts inside the run. */
  lemma TokenWordInRun(words: seq<string>, text: string, s: nat)
    requires s < |text|
    requires ContainsWord(words, text[s..RunEnd(text, s)])
    ensures exists a :: s <= a < RunEnd(text, s) && WordAt(words, text, a)
  {
    var e := RunEnd(text, s);
    var token := text[s..e];
    var a :| 0 <= a < |token| && WordAt(words, token, a);
    var i :| 0 <= i < |words| && OccursAt(token, a, words[i]);
    assert text[s + a..s + a + |words[i]|] == words[i];
    assert WordAt(words, text, s + a);
  }

  /** Whether the run at `s` holds a word is whether its token contains a word. */
  lemma WordRuns(words: seq<string>, text: string)
    requires IsWordList(words)
    ensures Describes(WordWitness(words), ContainsWordOf(words), text)
  {
    forall s | 0 <= s < |text| && !IsSpace(text[s])
      ensures LastWitness(WordWitness(words), text, s, RunEnd(text, s)).Some? <==>
              ContainsWord(words, text[s..RunEnd(text, s)])
    {
      var found := LastWitness(WordWitness(words), text, s, RunEnd(text, s));
      if found.Some? {
        assert WordWitness(words)(text, found.value);
        WitnessInToken(words, text, s, found.value);
      }
      if ContainsWord(words, text[s..RunEnd(text, s)]) {
        TokenWordInRun(words, text, s);
        var a :| s <= a < RunEnd(text, s) && WordAt(words, text, a);
        assert WordWitness(words)(text, a);
      }
    }
  }

  /** In substring mode the matches are exactly the whitespace-delimited tokens that
      contain one of the words, whole and in order: `there is rain, it is raining` with
      the word `rain` gives `rain,` and `raining`. */
  lemma SubstringMatchesAreTokens(words: seq<string>, text: string)
    requires IsWordList(words)
    ensures SubstringMatches(words, text) == Filter(ContainsWordOf(words), Tokens(text))
  {
    WordRuns(words, text);
    SpansAreTokens(WordWitness(words), ContainsWordOf(words), text, 0);
  }

  /** In substring mode the word `rain` in `there is rain, it is raining` gives the
      whole tokens `rain,` and `raining`, punctuation included. */
  lemma SubstringModeOnRain(t: string)
    requires t == "there is rain, it is raining"
    ensures SubstringMatches(["rain"], t) == ["rain,", "raining"]
  {
    SubstringMatchesAreTokens(["rain"], t);
    RainTokens(t);
    RainFilter(["there", "is", "rain,", "it", "is", "raining"]);
  }

  /** The tokens of the example sentence. */
  lemma RainTokens(t: string)
    requires t == "there is rain, it is raining"
    ensures Tokens(t) == ["there", "is", "rain,", "it", "is", "raining"]
  {
    var parts := ["there", "is", "rain,", "it", "is", "raining"];
    RainJoined(t, parts);
    RainParts(parts);
    TokensOfJoin(parts);
  }

  lemma RainJoined(t: string, parts: seq<string>)
    requires t == "there is rain, it is raining"
    requires parts == ["there", "is", "rain,", "it", "is", "raining"]
    ensures t == Join(' ', parts)
  {
    RainJoinedTail(parts);
    assert Join(' ', parts[1..]) == "is rain, it is raining";
  }

  lemma RainJoinedTail(parts: seq<string>)
    requires parts == ["there", "is", "rain,", "it", "is", "raining"]
    ensures Join(' ', parts[2..]) == "rain, it is raining"
  {
    assert Join(' ', parts[4..]) == "is raining";
  }

  lemma RainParts(parts: seq<string>)
    requires parts == ["there", "is", "rain,", "it", "is", "raining"]
    ensures forall i :: 0 <= i < |parts| ==> |parts[i]| > 0 && forall k :: 0 <= k < |parts[i]| ==> !IsSpace(parts[i][k])
  {
  }

  /** The tokens of the example sentence that contain `rain`. */
  lemma RainFilter(toks: seq<string>)
    requires toks == ["there", "is", "rain,", "it", "is", "raining"]
    ensures Filter(ContainsWordOf(["rain"]), toks) == ["rain,", "raining"]
  {
    var f := ContainsWordOf(["rain"]);
    RainVerdicts(toks);
    assert Filter(f, toks[5..]) == [toks[5]];
    assert Filter(f, toks[4..]) == [toks[5]];
    assert Filter(f, toks[3..]) == [toks[5]];
    assert Filter(f, toks[2..]) == [toks[2], toks[5]];
    assert Filter(f, toks[1..]) == [toks[2], toks[5]];
  }

  lemma RainVerdicts(toks: seq<string>)
    requires toks == ["there", "is", "rain,", "it", "is", "raining"]
    ensures var f := ContainsWordOf(["rain"]);
            !f(toks[0]) && !f(toks[1]) && f(toks[2]) && !f(toks[3]) && !f(toks[4]) && f(toks[5])
  {
    RainIn(toks[2]);
    RainIn(toks[5]);
    RainNotIn(toks[0]);
    RainNotIn(toks[1]);
    RainNotIn(toks[3]);
    RainNotIn(toks[4]);
  }

  lemma RainIn(w: string)
    requires w == "rain," || w == "raining"
    ensures ContainsWordOf(["rain"])(w)
  {
    var ws := ["rain"];
    assert w[0..4] == ws[0];
    assert WordAt(ws, w, 0);
  }

  lemma RainNotIn(w: string)
    requires w == "there" || w == "is" || w == "it"
    ensures !ContainsWordOf(["rain"])(w)
  {
    var ws := ["rain"];
    forall a | 0 <= a < |w| ensures !OccursAt(w, a, ws[0]) {
      if a + 4 <= |w| {
        assert w[a..a + 4][0] != 'r';
      }
    }
  }

  /** Python's `\w` restricted to ASCII: letters, digits and `_`. */
  predicate IsWordChar(c: char) {
    ('a' <= c <= 'z') || ('A' <= c <= 'Z') || ('0' <= c <= '9') || c == '_'
  }

  /** `\b` at position `p`: a word character on exactly one side. */
  predicate IsBoundary(text: string, p: nat) {
    (0 < p <= |text| && IsWordChar(text[p - 1])) != (p < |text| && IsWordChar(text[p]))
  }

  /** `\b` + `word` + `\b` matches at `q`: the word occurs there between two boundaries. */
  predicate WholeWordAt(text: string, q: nat, word: string) {
    OccursAt(text, q, word) && IsBoundary(text, q) && IsBoundary(text, q + |word|)
  }

  /** The branch the alternation takes at `q`, trying the branches from the `i`-th on in
      order: the index of the first word that matches whole there, or none when no word
      from the `i`-th on does. */
  function FirstWholeWord(words: seq<string>, text: string, q: nat, i: nat): (r: Option<nat>)
    requires i <= |words|
    ensures r.Some? ==> i <= r.value < |words| && WholeWordAt(text, q, words[r.value])
    ensures r.Some? ==> forall k :: i <= k < r.value ==> !WholeWordAt(text, q, words[k])
    ensures r.None? ==> forall k :: i <= k < |words| ==> !WholeWordAt(text, q, words[k])
    decreases |words| - i
  {
    if i == |words| then None
    else if WholeWordAt(text, q, words[i]) then Some(i)
    else FirstWholeWord(words, text, q, i + 1)
  }

  /** `word` occurs whole at some position from `q` on. */
  ghost predicate WholeWordFrom(text: string, q: nat, word: string) {
    exists p :: q <= p < |text| && WholeWordAt(text, p, word)
  }

  /** `findall` of the whole-word pattern of non-empty `words`, scanning from `q`: after a
      match the scan resumes at its end, otherwise one position further on. Every match
      is one of the words, found whole at some position of the scan, and the scan finds
      nothing exactly when no word occurs whole anywhere from `q` on. */
  function WholeWordMatches(words: seq<string>, text: string, q: nat): (r: seq<string>)
    requires forall i :: 0 <= i < |words| ==> |words[i]| > 0
    requires q <= |text|
    ensures forall k :: 0 <= k < |r| ==> r[k] in words && WholeWordFrom(text, q, r[k])
    ensures r == [] <==> forall p, i :: q <= p < |text| && 0 <= i < |words| ==> !WholeWordAt(text, p, words[i])
    decreases |text| - q
  {
    if q == |text| then []
    else
      match FirstWholeWord(words, text, q, 0)
      case Some(i) =>
        var rest := WholeWordMatches(words, text, q + |words[i]|);
        assert WholeWordFrom(text, q, words[i]) by {
          assert WholeWordAt(text, q, words[i]);
        }
        assert forall k :: 0 <= k < |rest| ==> WholeWordFrom(text, q, rest[k]) by {
          forall k | 0 <= k < |rest| ensures WholeWordFrom(text, q, rest[k]) {
            var p :| q + |words[i]| <= p < |text| && WholeWordAt(text, p, rest[k]);
          }
        }
        [words[i]] + rest
      case None =>
        var rest := WholeWordMatches(words, text, q + 1);
        assert forall k :: 0 <= k < |rest| ==> WholeWordFrom(text, q, rest[k]) by {
          forall k | 0 <= k < |rest| ensures WholeWordFrom(text, q, rest[k]) {
            var p :| q + 1 <= p < |text| && WholeWordAt(text, p, rest[k]);
          }
        }
        rest
  }

  /** Positions where no word occurs whole are passed over one by one. */
  lemma {:induction false} NoWholeSkips(words: seq<string>, text: string, q: nat, p: nat)
    requires forall i :: 0 <= i < |words| ==> |words[i]| > 0
    requires q <= p <= |text|
    requires forall j, i :: q <= j < p && 0 <= i < |words| ==> !WholeWordAt(text, j, words[i])
    ensures WholeWordMatches(words, text, q) == WholeWordMatches(words, text, p)
    decreases p - q
  {
    if q < p {
      assert FirstWholeWord(words, text, q, 0).None?;
      assert WholeWordMatches(words, text, q) == WholeWordMatches(words, text, q + 1);
      NoWholeSkips(words, text, q + 1, p);
    }
  }

  /** In whole-word mode the word `rain` in `there is rain, it is raining` is reported
      once: the `rain` at the start of `raining` is not followed by a `\b`. */
  lemma WholeWordModeOnRain(t: string)
    requires t == "there is rain, it is raining"
    ensures WholeWordMatches(["rain"], t, 0) == ["rain"]
  {
    var ws := ["rain"];
    RainBefore(t);
    NoWholeSkips(ws, t, 0, 9);
    RainAt(t);
    assert FirstWholeWord(ws, t, 9, 0) == Some(0);
    RainAfter(t);
    assert WholeWordMatches(ws, t, 13) == [];
  }

  lemma RainBefore(t: string)
    requires t == "there is rain, it is raining"
    ensures forall p :: 0 <= p < 9 ==> !WholeWordAt(t, p, "rain")
  {
    forall p | 0 <= p < 9 ensures !WholeWordAt(t, p, "rain") {
      if p == 3 {
        assert !IsBoundary(t, 3);
      } else {
        assert t[p] != 'r';
        FirstCharDiffers(t, p, "rain");
      }
    }
  }

  /** A word does not occur where its first character is missing. */
  lemma FirstCharDiffers(text: string, p: nat, word: string)
    requires |word| > 0 && p < |text| && text[p] != word[0]
    ensures !OccursAt(text, p, word)
  {
    if p + |word| <= |text| {
      assert text[p..p + |word|][0] == text[p];
    }
  }

  lemma RainAt(t: string)
    requires t == "there is rain, it is raining"
    ensures WholeWordAt(t, 9, "rain")
  {
    assert t[9..13] == "rain";
  }

  lemma RainAfter(t: string)
    requires t == "there is rain, it is raining"
    ensures forall p :: 13 <= p < |t| ==> !WholeWordAt(t, p, "rain")
  {
    forall p | 13 <= p < |t| ensures !WholeWordAt(t, p, "rain") {
      if p == 21 {
        assert !IsBoundary(t, 25);
      } else {
        assert t[p] != 'r';
        FirstCharDiffers(t, p, "rain");
      }
    }
  }

  /** When the engine agrees with the modelled scans on the pattern `extract_words`
      builds, every extracted word is lower-case; in substring mode each is a token of
      its lower-cased record that contains one of the words, in whole-word mode each is
      one of the lower-cased words. */
  lemma ExtractedWordsAreLower(texts: Texts, words: Texts, entireWordsOnly: bool, findall: FindAll)
    requires IsWordList(Map(Lower, AsList(words)))
    requires entireWordsOnly ==> forall t :: findall(WordPattern(true, Map(Lower, AsList(words))), t) ==
                                               WholeWordMatches(Map(Lower, AsList(words)), t, 0)
    requires !entireWordsOnly ==> forall t :: findall(WordPattern(false, Map(Lower, AsList(words))), t) ==
                                                SubstringMatches(Map(Lower, AsList(words)), t)
    requires |Iterated(texts)| > 0
    ensures var r := ExtractWords(texts, words, entireWordsOnly, findall);
            r.Success? && forall x :: x in r.value.flat ==> IsLower(x)
    ensures var r := ExtractWords(texts, words, entireWordsOnly, findall);
            !entireWordsOnly ==> forall i :: 0 <= i < |Iterated(texts)| ==>
              r.value.lists[i] == Filter(ContainsWordOf(Map(Lower, AsList(words))), Tokens(Lower(Iterated(texts)[i])))
    ensures var r := ExtractWords(texts, words, entireWordsOnly, findall);
            entireWordsOnly ==> forall x :: x in r.value.flat ==> x in Map(Lower, AsList(words))
  {
    var ws := Map(Lower, AsList(words));
    var r := ExtractWords(texts, words, entireWordsOnly, findall);
    var lists := r.value.lists;
    var pattern := WordPattern(entireWordsOnly, ws);
    forall k | 0 <= k < |ws| ensures IsLower(ws[k]) {
      LowerIsLower(AsList(words)[k]);
    }
    forall i | 0 <= i < |lists|
      ensures forall x :: x in lists[i] ==> IsLower(x)
      ensures entireWordsOnly ==> forall x :: x in lists[i] ==> x in ws
      ensures !entireWordsOnly ==> lists[i] == Filter(ContainsWordOf(ws), Tokens(Lower(Iterated(texts)[i])))
    {
      assert lists[i] == findall(pattern, Lower(Iterated(texts)[i]));
      RecordWords(Iterated(texts)[i], ws, entireWordsOnly, findall);
    }
    forall x | x in r.value.flat ensures IsLower(x) && (entireWordsOnly ==> x in ws) {
      InFlatten(lists, x);
    }
  }

  /** What the engine reports for one lower-cased record, when it agrees with the scans:
      lower-case words, the tokens containing a word in substring mode, and the words
      themselves in whole-word mode. */
  lemma RecordWords(t: string, ws: seq<string>, entireWordsOnly: bool, findall: FindAll)
    requires IsWordList(ws) && forall k :: 0 <= k < |ws| ==> IsLower(ws[k])
    requires entireWordsOnly ==> findall(WordPattern(true, ws), Lower(t)) == WholeWordMatches(ws, Lower(t), 0)
    requires !entireWordsOnly ==> findall(WordPattern(false, ws), Lower(t)) == SubstringMatches(ws, Lower(t))
    ensures var m := findall(WordPattern(entireWordsOnly, ws), Lower(t));
            (forall x :: x in m ==> IsLower(x)) &&
            (entireWordsOnly ==> forall x :: x in m ==> x in ws) &&
            (!entireWordsOnly ==> m == Filter(ContainsWordOf(ws), Tokens(Lower(t))))
  {
    var text := Lower(t);
    var m := findall(WordPattern(entireWordsOnly, ws), text);
    LowerIsLower(t);
    if !entireWordsOnly {
      SubstringMatchesAreTokens(ws, text);
      forall x | x in m ensures IsLower(x) {
        TokensAreSlices(text, 0, x);
      }
    }
  }


  /** Every token of a lower-case text is lower-case. */
  lemma {:induction false} TokensAreSlices(text: string, p: nat, x: string)
    requires p <= |text| && IsLower(text)
    requires x in TokensFrom(text, p)
    ensures IsLower(x)
    decreases |text| - p
  {
    if p < |text| {
      if IsSpace(text[p]) {
        TokensAreSlices(text, p + 1, x);
      } else {
        var e := RunEnd(text, p);
        if x != text[p..e] {
          assert x in TokensFrom(text, e);
          TokensAreSlices(text, e, x);
        } else {
          SliceIsLower(text, p, e);
        }
      }
    }
  }
}
