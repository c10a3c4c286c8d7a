/** `re.findall` for the patterns of the shape `\S*X\S*` the extractors build: a leading
    `\S*`, then something that must start inside the run of non-space characters, then a
    trailing `\S*`. At a position `q` the leading `\S*` first takes the whole run and gives
    characters back until what follows can match, so the match starts at `q`, its inner
    part starts at the LAST position of the run where it can, and the trailing `\S*`
    runs to the end of the run. The inner part is given by a witness predicate: `w(text, a)`
    holds when it can start at `a` and lies inside the run there. */
module Scanning {
  import opened Wrappers
  import opened Seqs
  import opened Strings

  type Witness = (string, nat) -> bool

  /** The largest `a` in `[lo, hi)` with `w(text, a)`. */
  function LastWitness(w: Witness, text: string, lo: nat, hi: nat): (r: Option<nat>)
    requires lo <= hi <= |text|
    ensures r.Some? ==> lo <= r.value < hi && w(text, r.value) && forall a :: r.value < a < hi ==> !w(text, a)
    ensures r.None? ==> forall a :: lo <= a < hi ==> !w(text, a)
    decreases hi - lo
  {
    if lo == hi then None
    else if w(text, hi - 1) then Some(hi - 1)
    else LastWitness(w, text, lo, hi - 1)
  }

  /** A match found by the scan: where it starts, where its inner part starts, where it ends. */
  datatype Span = Span(start: nat, inner: nat, end: nat)

  /** The matches `findall` reports, scanning from `q`: a match at `q` when the run
      starting there holds a witness, otherwise the scan moves on by one position. */
  function Spans(w: Witness, text: string, q: nat): (r: seq<Span>)
    requires q <= |text|
    ensures forall i :: 0 <= i < |r| ==>
              q <= r[i].start <= r[i].inner < r[i].end <= |text| &&
              r[i].end == RunEnd(text, r[i].start) && w(text, r[i].inner) &&
              forall a :: r[i].inner < a < r[i].end ==> !w(text, a)
    decreases |text| - q
  {
    if q == |text| then []
    else
      var e := RunEnd(text, q);
      var found := LastWitness(w, text, q, e);
      if found.Some? then [Span(q, found.value, e)] + Spans(w, text, e)
      else Spans(w, text, q + 1)
  }

  /** The matched texts of a list of spans. */
  function SpanTexts(text: string, spans: seq<Span>): (r: seq<string>)
    requires forall i :: 0 <= i < |spans| ==> spans[i].start <= spans[i].end <= |text|
    ensures |r| == |spans|
    ensures forall i :: 0 <= i < |spans| ==> r[i] == text[spans[i].start..spans[i].end]
  {
    seq(|spans|, i requires 0 <= i < |spans| => text[spans[i].start..spans[i].end])
  }

  /** `p` says of a token text whether the run it comes from holds a witness. */
  ghost predicate Describes(w: Witness, p: string -> bool, text: string) {
    forall s :: 0 <= s < |text| && !IsSpace(text[s]) ==>
      (LastWitness(w, text, s, RunEnd(text, s)).Some? <==> p(text[s..RunEnd(text, s)]))
  }

  /** Inside a run without a witness the scan finds nothing until the end of the run. */
  lemma {:induction false} SkipRun(w: Witness, text: string, p: nat, e: nat)
    requires p <= e <= |text| && (p == e || RunEnd(text, p) == e)
    requires forall a :: p <= a < e ==> !w(text, a)
    ensures Spans(w, text, p) == Spans(w, text, e)
    decreases e - p
  {
    if p < e {
      assert LastWitness(w, text, p, e).None?;
      if p + 1 < e {
        RunEndInside(text, p, p + 1);
      }
      SkipRun(w, text, p + 1, e);
    }
  }

  /** The texts `findall` reports are the whitespace-delimited tokens whose run holds a
      witness, in order: the scan of every run either matches at its first character or
      at none of them. */
  lemma {:induction false} SpansAreTokens(w: Witness, p: string -> bool, text: string, q: nat)
    requires q <= |text|
    requires Describes(w, p, text)
    ensures SpanTexts(text, Spans(w, text, q)) == Filter(p, TokensFrom(text, q))
    decreases |text| - q
  {
    if q < |text| {
      if IsSpace(text[q]) {
        SpansAreTokens(w, p, text, q + 1);
      } else {
        var e := RunEnd(text, q);
        SpansAreTokens(w, p, text, e);
        RunStep(w, p, text, q);
      }
    }
  }

  /** One run: the scan from its start and the token filter agree on it. */
  lemma RunStep(w: Witness, p: string -> bool, text: string, q: nat)
    requires q < |text| && !IsSpace(text[q])
    requires Describes(w, p, text)
    ensures var e := RunEnd(text, q);
            var rest := SpanTexts(text, Spans(w, text, e));
            SpanTexts(text, Spans(w, text, q)) == (if p(text[q..e]) then [text[q..e]] else []) + rest
    ensures Filter(p, TokensFrom(text, q)) ==
              (if p(text[q..RunEnd(text, q)]) then [text[q..RunEnd(text, q)]] else []) + Filter(p, TokensFrom(text, RunEnd(text, q)))
  {
    var e := RunEnd(text, q);
    assert LastWitness(w, text, q, e).Some? <==> p(text[q..e]);
    if LastWitness(w, text, q, e).Some? {
      MatchedRun(w, text, q);
    } else {
      SkippedRun(w, text, q);
    }
    TokenStep(p, text, q);
  }

  /** A run holding a witness contributes its whole text to the scan. */
  lemma MatchedRun(w: Witness, text: string, q: nat)
    requires q < |text| && !IsSpace(text[q])
    requires LastWitness(w, text, q, RunEnd(text, q)).Some?
    ensures SpanTexts(text, Spans(w, text, q)) == [text[q..RunEnd(text, q)]] + SpanTexts(text, Spans(w, text, RunEnd(text, q)))
  {
    var e := RunEnd(text, q);
    var rest := Spans(w, text, e);
    var sp := Span(q, LastWitness(w, text, q, e).value, e);
    assert Spans(w, text, q) == [sp] + rest;
    SpanTextsCons(text, sp, rest);
  }

  /** The matched texts of a span followed by others. */
  lemma SpanTextsCons(text: string, sp: Span, rest: seq<Span>)
    requires sp.start <= sp.end <= |text|
    requires forall i :: 0 <= i < |rest| ==> rest[i].start <= rest[i].end <= |text|
    ensures SpanTexts(text, [sp] + rest) == [text[sp.start..sp.end]] + SpanTexts(text, rest)
  {
    var spans := [sp] + rest;
    assert forall i :: 0 < i < |spans| ==> spans[i] == rest[i - 1];
  }

  /** A run without a witness contributes nothing to the scan. */
  lemma SkippedRun(w: Witness, text: string, q: nat)
    requires q < |text| && !IsSpace(text[q])
    requires LastWitness(w, text, q, RunEnd(text, q)).None?
    ensures Spans(w, text, q) == Spans(w, text, RunEnd(text, q))
  {
    var e := RunEnd(text, q);
    if q + 1 < e {
      RunEndInside(text, q, q + 1);
    }
    SkipRun(w, text, q + 1, e);
  }

  /** The token filter on the tokens from the start of a run. */
  lemma TokenStep(p: string -> bool, text: string, q: nat)
    requires q < |text| && !IsSpace(text[q])
    ensures Filter(p, TokensFrom(text, q)) ==
              (if p(text[q..RunEnd(text, q)]) then [text[q..RunEnd(text, q)]] else []) + Filter(p, TokensFrom(text, RunEnd(text, q)))
  {
    var e := RunEnd(text, q);
    var toks := TokensFrom(text, q);
    assert toks == [text[q..e]] + TokensFrom(text, e);
    assert toks[1..] == TokensFrom(text, e);
  }
}
