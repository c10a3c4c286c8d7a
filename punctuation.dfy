/** `extract_currency`, `extract_exclamations` and `extract_questions`
    (advertools/extract.py): a summary of the marks found in the lower-cased texts,
    the lower-cased Unicode name of every mark, and the text matched around marks in
    the original-case texts. */
module Punctuation {
  import opened Wrappers
  import opened Seqs
  import opened Strings
  import opened Decimal
  import opened Extraction
  import opened Enrichment

  datatype MarkSummary = MarkSummary(
    marks: Summary<string>,       // the summary `extract` builds for the marks
    names: seq<seq<string>>,      // `*_names`
    context: seq<seq<string>>)    // `surrounding_text`, `exclamation_text`, `question_text`

  const WindowOpen: string := ".{0,"

  /** `r'.{0,' + str(left_chars) + '}' + CURRENCY_RAW + r'.{0,' + str(right_chars) + '}'`:
      up to `left` characters, the currency pattern, up to `right` characters. The text
      between the leading `.{0,` and the final `}` is the window body. */
  function WindowPattern(left: int, raw: string, right: int): string {
    WindowOpen + WindowBody(IntToString(left), raw, IntToString(right)) + "}"
  }

  /** `L}raw.{0,R`: the two widths around the middle pattern. */
  function WindowBody(L: string, raw: string, R: string): string {
    L + "}" + raw + WindowOpen + R
  }

  /** Reads the two window widths and the middle pattern back from a window pattern:
      the left width runs up to the first `}`, the right width starts after the last `,`. */
  function ParseWindow(p: string): Option<(int, string, int)> {
    if !StartsWith(p, WindowOpen) || |p| < 5 || p[|p| - 1] != '}' then None
    else ParseWindowBody(p[4..|p| - 1])
  }

  /** The part of `ParseWindow` between the leading `.{0,` and the final `}`. */
  function ParseWindowBody(body: string): Option<(int, string, int)> {
    match SplitWindowBody(body)
    case None => None
    case Some((leftDigits, raw, rightDigits)) =>
      if ParseInt(leftDigits).Some? && ParseInt(rightDigits).Some? then
        Some((ParseInt(leftDigits).value, raw, ParseInt(rightDigits).value))
      else None
  }

  /** Cuts a window body into the left width's text (up to the first `}`), the middle
      pattern and the right width's text (after the last `,`, preceded by `.{0,`). */
  function SplitWindowBody(body: string): Option<(string, string, string)> {
    SplitAround(body, FirstIndex(body, '}'), LastPiece(',', body))
  }

  /** The cut of a window body at its `i`-th character, with `rightDigits` at its end. */
  function SplitAround(body: string, i: nat, rightDigits: string): Option<(string, string, string)> {
    var j := |body| - |rightDigits|;
    if i >= |body| || j < i + 5 || body[j - 4..j] != WindowOpen then None
    else Some((body[..i], body[i + 1..j - 4], rightDigits))
  }

  /** The decimal form of an integer holds no `}` and no `,`. */
  lemma NumeralHasNoDelimiters(n: int)
    ensures '}' !in IntToString(n) && ',' !in IntToString(n)
    ensures ParseInt(IntToString(n)) == Some(n)
  {
    ParseIntToString(n);
    var s := IntToString(n);
    forall k | 0 <= k < |s| ensures s[k] != '}' && s[k] != ',' {
      assert IsDigit(s[k]) || s[k] == '-';
    }
  }

  /** The first `}` of a window body ends the left width. */
  lemma BodyFirstBrace(L: string, raw: string, R: string)
    requires '}' !in L
    ensures FirstIndex(WindowBody(L, raw, R), '}') == |L|
    ensures WindowBody(L, raw, R)[..|L|] == L
  {
    var body := WindowBody(L, raw, R);
    assert body[..|L|] == L;
    assert body[|L|] == '}';
    FirstIndexIs(body, '}', |L|);
  }

  /** The text after the last `,` of a window body is the right width. */
  lemma BodyLastComma(L: string, raw: string, R: string)
    requires ',' !in R
    ensures LastPiece(',', WindowBody(L, raw, R)) == R
  {
    var x := L + "}" + raw + ".{0";
    assert WindowBody(L, raw, R) == x + [','] + R;
    LastPieceAfter(',', x, R);
  }

  lemma BodySplits(L: string, raw: string, R: string)
    ensures SplitAround(WindowBody(L, raw, R), |L|, R) == Some((L, raw, R))
  {
    var body := WindowBody(L, raw, R);
    var j := |body| - |R|;
    assert body[j - 4..j] == WindowOpen;
    assert body[..|L|] == L;
    assert body[|L| + 1..j - 4] == raw;
  }

  lemma Unwrap(body: string)
    ensures ParseWindow(WindowOpen + body + "}") == ParseWindowBody(body)
  {
    var p := WindowOpen + body + "}";
    assert p[..4] == WindowOpen;
    assert p[4..|p| - 1] == body;
  }

  lemma PatternParses(L: string, raw: string, R: string, left: int, right: int)
    requires '}' !in L && ',' !in R
    requires ParseInt(L) == Some(left) && ParseInt(R) == Some(right)
    ensures ParseWindow(WindowOpen + WindowBody(L, raw, R) + "}") == Some((left, raw, right))
  {
    var body := WindowBody(L, raw, R);
    Unwrap(body);
    BodyFirstBrace(L, raw, R);
    BodyLastComma(L, raw, R);
    BodySplits(L, raw, R);
    assert SplitWindowBody(body) == Some((L, raw, R));
  }

  /** The window pattern keeps both widths and the middle pattern recoverable, whatever
      the middle pattern contains and whatever the sign of the widths. */
  lemma WindowPatternParses(left: int, raw: string, right: int)
    ensures ParseWindow(WindowPattern(left, raw, right)) == Some((left, raw, right))
  {
    NumeralHasNoDelimiters(left);
    NumeralHasNoDelimiters(right);
    PatternParses(IntToString(left), raw, IntToString(right), left, right);
  }

  /** The body shared by the three extractors: `extract` on the mark pattern, the names of
      the marks, and the context pattern on each iterated original-case record. The
      summary is built first (no records is a `ZeroDivisionError`), the names next. */
  function ExtractMarks(texts: Texts, markPattern: string, contextPattern: string, findall: FindAll,
                        unicodeNames: map<char, string>): (r: Result<MarkSummary, Error>)
    ensures |AsList(texts)| == 0 ==> r == Failure(ZeroDivisionError)
    ensures |AsList(texts)| > 0 ==>
              (r.Success? <==> Names(LowerMatches(findall, markPattern, AsList(texts)), unicodeNames).Success?)
    ensures |AsList(texts)| > 0 && r.Failure? ==>
              Names(LowerMatches(findall, markPattern, AsList(texts)), unicodeNames) == Failure(r.error)
    ensures r.Success? ==> IsSummaryOf(r.value.marks, LowerMatches(findall, markPattern, AsList(texts)), |AsList(texts)|)
    ensures r.Success? ==> Names(r.value.marks.lists, unicodeNames) == Success(r.value.names)
    ensures r.Success? ==> r.value.context == Matches(findall, contextPattern, Iterated(texts))
  {
    var base := Extract(texts, (t: string) => findall(markPattern, t), None);
    if base.Failure? then Failure(base.error)
    else
      assert base.value.lists == LowerMatches(findall, markPattern, AsList(texts));
      var names := Names(base.value.lists, unicodeNames);
      if names.Failure? then Failure(names.error)
      else Success(MarkSummary(base.value, names.value, Matches(findall, contextPattern, Iterated(texts))))
  }

  /** `extract_currency(text_list, left_chars, right_chars)`: currency symbols, their
      names, and the text in a window of `left_chars`/`right_chars` characters around
      each symbol. */
  function ExtractCurrency(texts: Texts, leftChars: int, rightChars: int, findall: FindAll, patterns: Patterns,
                           unicodeNames: map<char, string>): (r: Result<MarkSummary, Error>)
    ensures |AsList(texts)| == 0 ==> r == Failure(ZeroDivisionError)
    ensures |AsList(texts)| > 0 ==>
              (r.Success? <==> Names(LowerMatches(findall, patterns.currency, AsList(texts)), unicodeNames).Success?)
    ensures |AsList(texts)| > 0 && r.Failure? ==>
              Names(LowerMatches(findall, patterns.currency, AsList(texts)), unicodeNames) == Failure(r.error)
    ensures r.Success? ==> IsSummaryOf(r.value.marks, LowerMatches(findall, patterns.currency, AsList(texts)), |AsList(texts)|)
    ensures r.Success? ==> Names(r.value.marks.lists, unicodeNames) == Success(r.value.names)
    ensures r.Success? ==>
              r.value.context == Matches(findall, WindowPattern(leftChars, patterns.currencyRaw, rightChars), Iterated(texts))
  {
    ExtractMarks(texts, patterns.currency, WindowPattern(leftChars, patterns.currencyRaw, rightChars), findall, unicodeNames)
  }

  /** `extract_exclamations(text_list)`: exclamation marks, their names, and the
      exclamations matched in the original-case texts. */
  function ExtractExclamations(texts: Texts, findall: FindAll, patterns: Patterns,
                               unicodeNames: map<char, string>): (r: Result<MarkSummary, Error>)
    ensures |AsList(texts)| == 0 ==> r == Failure(ZeroDivisionError)
    ensures |AsList(texts)| > 0 ==>
              (r.Success? <==> Names(LowerMatches(findall, patterns.exclamationMark, AsList(texts)), unicodeNames).Success?)
    ensures |AsList(texts)| > 0 && r.Failure? ==>
              Names(LowerMatches(findall, patterns.exclamationMark, AsList(texts)), unicodeNames) == Failure(r.error)
    ensures r.Success? ==> IsSummaryOf(r.value.marks, LowerMatches(findall, patterns.exclamationMark, AsList(texts)), |AsList(texts)|)
    ensures r.Success? ==> Names(r.value.marks.lists, unicodeNames) == Success(r.value.names)
    ensures r.Success? ==> r.value.context == Matches(findall, patterns.exclamation, Iterated(texts))
  {
    ExtractMarks(texts, patterns.exclamationMark, patterns.exclamation, findall, unicodeNames)
  }

  /** `extract_questions(text_list)`: question marks, their names, and the questions
      matched in the original-case texts. */
  function ExtractQuestions(texts: Texts, findall: FindAll, patterns: Patterns,
                            unicodeNames: map<char, string>): (r: Result<MarkSummary, Error>)
    ensures |AsList(texts)| == 0 ==> r == Failure(ZeroDivisionError)
    ensures |AsList(texts)| > 0 ==>
              (r.Success? <==> Names(LowerMatches(findall, patterns.questionMark, AsList(texts)), unicodeNames).Success?)
    ensures |AsList(texts)| > 0 && r.Failure? ==>
              Names(LowerMatches(findall, patterns.questionMark, AsList(texts)), unicodeNames) == Failure(r.error)
    ensures r.Success? ==> IsSummaryOf(r.value.marks, LowerMatches(findall, patterns.questionMark, AsList(texts)), |AsList(texts)|)
    ensures r.Success? ==> Names(r.value.marks.lists, unicodeNames) == Success(r.value.names)
    ensures r.Success? ==> r.value.context == Matches(findall, patterns.question, Iterated(texts))
  {
    ExtractMarks(texts, patterns.questionMark, patterns.question, findall, unicodeNames)
  }
}
