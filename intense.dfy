/** `extract_intense_words` (advertools/extract.py): whitespace-free tokens in which some
    character occurs `min_reps` times in a row. The pattern is synthesised from
    `min_reps` as `(\S*)(\S)(\2…\2\S*)` with `min_reps - 1` back-references, and every
    match, a triple of groups, is joined back into one string. */
module IntenseWords {
  import opened Wrappers
  import opened Seqs
  import opened Strings
  import opened Extraction
  import opened Scanning

  /** `(min_reps - 1) * r'\2'` repeats the back-reference `min_reps - 1` times; Python
      repeats a string a negative number of times as the empty string. */
  function Reps(minReps: int): (n: nat)
    ensures minReps >= 1 ==> n + 1 == minReps
    ensures minReps < 1 ==> n == 0
  {
    if minReps > 1 then minReps - 1 else 0
  }

  /** `n` copies of the back-reference `\2`. */
  function Backrefs(n: nat): (r: string)
    ensures |r| == 2 * n
  {
    if n == 0 then "" else "\\2" + Backrefs(n - 1)
  }

  const GroupsOpen := "(\\S*)(\\S)("
  const GroupsClose := "\\S*)"

  /** The pattern `extract_intense_words` compiles for `min_reps`. */
  function IntensePattern(minReps: int): string {
    GroupsOpen + Backrefs(Reps(minReps)) + GroupsClose
  }

  /** The length of the run of equal characters a pattern of this shape asks for: one
      for the second group plus one per back-reference. */
  function ParseIntensePattern(pattern: string): Option<nat> {
    if |pattern| < |GroupsOpen| + |GroupsClose| then None
    else
      var middle := pattern[|GroupsOpen|..|pattern| - |GroupsClose|];
      if pattern[..|GroupsOpen|] == GroupsOpen && pattern[|pattern| - |GroupsClose|..] == GroupsClose &&
         |middle| % 2 == 0 && middle == Backrefs(|middle| / 2)
      then Some(|middle| / 2 + 1)
      else None
  }

  /** The synthesised pattern asks for a run of `min_reps` equal characters (of one when
      `min_reps` is below one), so two patterns differ whenever their `min_reps` do and
      are at least one. */
  lemma IntensePatternParses(minReps: int)
    ensures ParseIntensePattern(IntensePattern(minReps)) == Some(Reps(minReps) + 1)
    ensures minReps >= 1 ==> ParseIntensePattern(IntensePattern(minReps)) == Some(minReps)
  {
    var p := IntensePattern(minReps);
    var n := Reps(minReps);
    assert p[..|GroupsOpen|] == GroupsOpen;
    assert p[|p| - |GroupsClose|..] == GroupsClose;
    assert p[|GroupsOpen|..|p| - |GroupsClose|] == Backrefs(n);
  }

  /** `s` holds the same character `n` times in a row from position `a`. */
  predicate RepeatsAt(s: string, a: nat, n: nat) {
    a < |s| && a + n <= |s| && forall k :: a <= k < a + n ==> s[k] == s[a]
  }

  /** A token holds some character `n` times in a row. */
  predicate HasRepeat(n: nat, token: string) {
    exists a :: 0 <= a < |token| && RepeatsAt(token, a, n)
  }

  function HasRepeatOf(n: nat): string -> bool {
    (token: string) => HasRepeat(n, token)
  }

  /** Where the second group can start: a character other than whitespace followed by
      `reps` copies of itself. */
  function RepeatWitness(reps: nat): Witness {
    (text: string, a: nat) => RepeatsAt(text, a, reps + 1) && !IsSpace(text[a])
  }

  /** One match of the pattern, as the three groups `findall` reports. */
  datatype Groups = Groups(prefix: string, repeated: char, suffix: string)

  /** `''.join(x)` of a match. */
  function Rejoin(g: Groups): string {
    g.prefix + [g.repeated] + g.suffix
  }

  /** `regex.findall(text)` for the pattern with `reps` back-references: a match per run
      of characters other than whitespace that holds a character followed by `reps` copies of
      itself. The first group is greedy, so the second group is the last such character
      of the run; the third group runs to the end of the run. */
  function IntenseGroups(reps: nat, text: string): (r: seq<Groups>)
    ensures forall i :: 0 <= i < |r| ==> (
              && !IsSpace(r[i].repeated)
              && |r[i].suffix| >= reps
              && (forall k :: 0 <= k < reps ==> r[i].suffix[k] == r[i].repeated)
              && HasRepeat(reps + 1, Rejoin(r[i])))
  {
    var spans := Spans(RepeatWitness(reps), text, 0);
    seq(|spans|, i requires 0 <= i < |spans| => GroupsOf(reps, text, spans[i]))
  }

  /** The groups of the match a span of the scan describes. */
  function GroupsOf(reps: nat, text: string, sp: Span): (g: Groups)
    requires sp.start <= |text| && sp.start <= sp.inner < sp.end == RunEnd(text, sp.start)
    requires RepeatWitness(reps)(text, sp.inner)
    ensures Rejoin(g) == text[sp.start..sp.end]
    ensures !IsSpace(g.repeated) && |g.suffix| >= reps && forall k :: 0 <= k < reps ==> g.suffix[k] == g.repeated
    ensures HasRepeat(reps + 1, Rejoin(g))
  {
    var s, a, e := sp.start, sp.inner, sp.end;
    InsideRun(text, s, a, a + reps + 1);
    SplitAtRepeat(reps, text, s, a, e);
    Groups(text[s..a], text[a], text[a + 1..e])
  }

  /** Cutting a token at the start of its run of equal characters. */
  lemma SplitAtRepeat(reps: nat, text: string, s: nat, a: nat, e: nat)
    requires s <= a && a + reps + 1 <= e <= |text| && RepeatsAt(text, a, reps + 1)
    ensures text[s..e] == text[s..a] + [text[a]] + text[a + 1..e]
    ensures HasRepeat(reps + 1, text[s..e])
  {
    assert text[s..e] == text[s..a] + [text[a]] + text[a + 1..e];
    assert RepeatsAt(text[s..e], a - s, reps + 1);
  }

  /** The joined matches `extract_intense_words` passes on for one text. */
  function IntenseMatches(reps: nat, text: string): seq<string> {
    Map(Rejoin, IntenseGroups(reps, text))
  }

  /** A run holds a witness exactly when its token holds a character `reps + 1` times
      in a row. */
  lemma RepeatRuns(reps: nat, text: string)
    ensures Describes(RepeatWitness(reps), HasRepeatOf(reps + 1), text)
  {
    forall s | 0 <= s < |text| && !IsSpace(text[s])
      ensures LastWitness(RepeatWitness(reps), text, s, RunEnd(text, s)).Some? <==> HasRepeat(reps + 1, text[s..RunEnd(text, s)])
    {
      WitnessInRun(reps, text, s);
      RunHasWitness(reps, text, s);
    }
  }

  /** A witness found in a run is a run of equal characters inside its token. */
  lemma WitnessInRun(reps: nat, text: string, s: nat)
    requires s < |text|
    ensures LastWitness(RepeatWitness(reps), text, s, RunEnd(text, s)).Some? ==> HasRepeat(reps + 1, text[s..RunEnd(text, s)])
  {
    var e := RunEnd(text, s);
    var found := LastWitness(RepeatWitness(reps), text, s, e);
    if found.Some? {
      var a := found.value;
      assert RepeatWitness(reps)(text, a);
      InsideRun(text, s, a, a + reps + 1);
      assert RepeatsAt(text[s..e], a - s, reps + 1);
    }
  }

  /** A run of equal characters inside a token is a witness the scan of its run finds. */
  lemma RunHasWitness(reps: nat, text: string, s: nat)
    requires s < |text|
    ensures HasRepeat(reps + 1, text[s..RunEnd(text, s)]) ==> LastWitness(RepeatWitness(reps), text, s, RunEnd(text, s)).Some?
  {
    var e := RunEnd(text, s);
    var token := text[s..e];
    if HasRepeat(reps + 1, token) {
      var b :| 0 <= b < |token| && RepeatsAt(token, b, reps + 1);
      assert RepeatsAt(text, s + b, reps + 1);
      assert RepeatWitness(reps)(text, s + b);
    }
  }

  /** The joined matches are exactly the whitespace-delimited tokens that hold some
      character `reps + 1` times in a row, whole and in order; a token whose longest run
      is shorter is never reported. */
  lemma IntenseMatchesAreTokens(reps: nat, text: string)
    ensures IntenseMatches(reps, text) == Filter(HasRepeatOf(reps + 1), Tokens(text))
  {
    var spans := Spans(RepeatWitness(reps), text, 0);
    assert IntenseMatches(reps, text) == SpanTexts(text, spans);
    RepeatRuns(reps, text);
    SpansAreTokens(RepeatWitness(reps), HasRepeatOf(reps + 1), text, 0);
  }

  /** A text without whitespace is its only token. */
  lemma SingleToken(t: string)
    requires |t| > 0 && forall k :: 0 <= k < |t| ==> !IsSpace(t[k])
    ensures Tokens(t) == [t]
  {
    assert RunEnd(t, 0) == |t|;
    assert TokensFrom(t, |t|) == [];
    assert TokensFrom(t, 0) == [t[0..|t|]] + TokensFrom(t, |t|);
    assert t[0..|t|] == t;
  }

  /** A token with a run is kept by the filter, one without is dropped. */
  lemma FilterOne(n: nat, t: string)
    ensures HasRepeat(n, t) ==> Filter(HasRepeatOf(n), [t]) == [t]
    ensures !HasRepeat(n, t) ==> Filter(HasRepeatOf(n), [t]) == []
  {
    assert [t][1..] == [];
  }

  /** A text without whitespace is matched whole when it has a run, and not at all
      otherwise. */
  lemma WholeTextVerdict(reps: nat, t: string)
    requires |t| > 0 && forall k :: 0 <= k < |t| ==> !IsSpace(t[k])
    ensures HasRepeat(reps + 1, t) ==> IntenseMatches(reps, t) == [t]
    ensures !HasRepeat(reps + 1, t) ==> IntenseMatches(reps, t) == []
  {
    IntenseMatchesAreTokens(reps, t);
    SingleToken(t);
    FilterOne(reps + 1, t);
  }

  /** With `min_reps=3`, `soooo` is intense. */
  lemma SooooIsIntense(t: string)
    requires t == "soooo"
    ensures IntenseMatches(Reps(3), t) == [t]
  {
    assert RepeatsAt(t, 1, 3);
    WholeTextVerdict(2, t);
  }

  /** With `min_reps=3`, `soo` is not intense. */
  lemma SooIsNotIntense(t: string)
    requires t == "soo"
    ensures IntenseMatches(Reps(3), t) == []
  {
    assert t[1] != t[0];
    assert !RepeatsAt(t, 0, 3);
    WholeTextVerdict(2, t);
  }

  function IntenseMatchesOf(reps: nat): string -> seq<string> {
    (text: string) => IntenseMatches(reps, text)
  }

  /** `extract_intense_words(text_list, min_reps)`. The joined matches of every iterated
      record are passed to `extract`; only when there is nothing to iterate over does
      `extract` match the lower-cased broadcast text itself, which for `""` finds
      nothing. */
  function ExtractIntenseWords(texts: Texts, minReps: int): (r: Result<Summary<string>, Error>)
    ensures r.Failure? <==> |AsList(texts)| == 0
    ensures r.Failure? ==> r.error == ZeroDivisionError
    ensures r.Success? ==> IsSummaryOf(r.value, r.value.lists, |AsList(texts)|)
    ensures r.Success? && |Iterated(texts)| > 0 ==> r.value.lists == Map(IntenseMatchesOf(Reps(minReps)), Iterated(texts))
    ensures r.Success? && |Iterated(texts)| == 0 ==> r.value.lists == [[]]
  {
    var reps := Reps(minReps);
    var extracted := Map(IntenseMatchesOf(reps), Iterated(texts));
    assert |Iterated(texts)| > 0 ==> extracted != [] by { assert |extracted| == |Iterated(texts)|; }
    assert |Iterated(texts)| == 0 && |AsList(texts)| > 0 ==>
           AsList(texts) == [""] && IntenseMatchesOf(reps)(Lower("")) == [] by {
      if |Iterated(texts)| == 0 && |AsList(texts)| > 0 {
        EmptyBroadcast(texts, reps);
      }
    }
    Extract(texts, IntenseMatchesOf(reps), Some(extracted))
  }

  /** Nothing to iterate over and at least one record: the text is `""`, and `extract`
      matching it itself finds nothing. */
  lemma EmptyBroadcast(texts: Texts, reps: nat)
    requires |Iterated(texts)| == 0 && |AsList(texts)| > 0
    ensures AsList(texts) == [""]
    ensures IntenseMatchesOf(reps)(Lower("")) == []
  {
    assert Lower("") == "";
  }
}
