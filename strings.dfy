/** Character classes and string operations used by the extractors: case folding,
    prefix tests, `str.join`/`str.split` on one separator, and whitespace-delimited
    tokens (the runs that the regular-expression class `\S` spans). */
module Strings {
  import opened Seqs

  predicate IsUpper(c: char) {
    'A' <= c <= 'Z'
  }

  function LowerChar(c: char): char {
    if IsUpper(c) then (c as int + 32) as char else c
  }

  /** `str.lower()`, restricted to the ASCII letters. */
  function Lower(s: string): (r: string)
    ensures |r| == |s|
    ensures forall i :: 0 <= i < |s| ==> r[i] == LowerChar(s[i])
  {
    seq(|s|, i requires 0 <= i < |s| => LowerChar(s[i]))
  }

  /** No upper-case letter, i.e. a fixed point of `Lower`. */
  predicate IsLower(s: string) {
    forall i :: 0 <= i < |s| ==> !IsUpper(s[i])
  }

  lemma LowerIsLower(s: string)
    ensures IsLower(Lower(s))
    ensures Lower(Lower(s)) == Lower(s)
  {
  }

  /** Every slice of a lower-case string is lower-case. */
  lemma SliceIsLower(s: string, i: nat, j: nat)
    requires IsLower(s) && i <= j <= |s|
    ensures IsLower(s[i..j])
  {
  }

  /** `str.startswith`. */
  predicate StartsWith(s: string, prefix: string) {
    |prefix| <= |s| && s[..|prefix|] == prefix
  }

  /** `sep.join(parts)` for a one-character separator. */
  function Join(sep: char, parts: seq<string>): string {
    if |parts| == 0 then ""
    else if |parts| == 1 then parts[0]
    else parts[0] + [sep] + Join(sep, parts[1..])
  }

  /** `s.split(sep)` for a one-character separator: the maximal pieces between
      separators, always at least one (possibly empty) piece. */
  function Split(sep: char, s: string): (parts: seq<string>)
    ensures |parts| >= 1
    ensures forall i :: 0 <= i < |parts| ==> sep !in parts[i]
    decreases |s|
  {
    var i := FirstIndex(s, sep);
    if i == |s| then [s] else [s[..i]] + Split(sep, s[i + 1..])
  }

  /** Splitting a joined list gives the list back when no part holds the separator. */
  lemma {:induction false} SplitJoin(sep: char, parts: seq<string>)
    requires |parts| >= 1
    requires forall i :: 0 <= i < |parts| ==> sep !in parts[i]
    ensures Split(sep, Join(sep, parts)) == parts
  {
    if |parts| == 1 {
      assert FirstIndex(parts[0], sep) == |parts[0]|;
    } else {
      var s := Join(sep, parts);
      var p := parts[0];
      assert s == p + [sep] + Join(sep, parts[1..]);
      assert s[..|p|] == p;
      FirstIndexIs(s, sep, |p|);
      assert s[|p| + 1..] == Join(sep, parts[1..]);
      SplitJoin(sep, parts[1..]);
    }
  }

  /** The last piece of `s.split(sep)` (Python's `s.split(sep)[-1]`). It follows `Split`
      past each separator in turn. */
  function LastPiece(sep: char, s: string): (r: string)
    ensures sep !in s ==> r == s
    decreases |s|
  {
    var i := FirstIndex(s, sep);
    if i == |s| then s else LastPiece(sep, s[i + 1..])
  }

  /** `LastPiece` is the last element of `Split`. */
  lemma {:induction false} LastPieceOfSplit(sep: char, s: string)
    ensures Last(Split(sep, s)) == LastPiece(sep, s)
    decreases |s|
  {
    var i := FirstIndex(s, sep);
    if i < |s| {
      var pt := Split(sep, s[i + 1..]);
      LastPieceOfSplit(sep, s[i + 1..]);
      assert Split(sep, s) == [s[..i]] + pt;
      LastOfCons(s[..i], pt);
    } else {
      assert Split(sep, s) == [s];
    }
  }

  /** The last piece is what follows the last separator. */
  lemma {:induction false} LastPieceAfter(sep: char, x: string, t: string)
    requires sep !in t
    ensures LastPiece(sep, x + [sep] + t) == t
    decreases |x|
  {
    var s := x + [sep] + t;
    var i := FirstIndex(s, sep);
    if i < |x| {
      assert s[i + 1..] == x[i + 1..] + [sep] + t;
      LastPieceAfter(sep, x[i + 1..], t);
    } else {
      assert s[..|x|] == x;
      assert s[|x|] == sep;
      assert s[i + 1..] == t;
    }
  }

  /** Python's `\s` for `str` patterns: the characters `str.isspace` accepts. */
  predicate IsSpace(c: char) {
    c == ' ' || ('\t' <= c <= '\r') || ('\U{1C}' <= c <= '\U{1F}') ||
    c == '\U{85}' || c == '\U{A0}' || c == '\U{1680}' || ('\U{2000}' <= c <= '\U{200A}') ||
    c == '\U{2028}' || c == '\U{2029}' || c == '\U{202F}' || c == '\U{205F}' || c == '\U{3000}'
  }

  /** End of the run of non-space characters that starts at `p`: where a greedy `\S*`
      started at `p` stops. */
  function RunEnd(text: string, p: nat): (e: nat)
    requires p <= |text|
    ensures p <= e <= |text|
    ensures forall k :: p <= k < e ==> !IsSpace(text[k])
    ensures e == |text| || IsSpace(text[e])
    decreases |text| - p
  {
    if p == |text| || IsSpace(text[p]) then p else RunEnd(text, p + 1)
  }

  /** Characters without whitespace that start inside a run end inside it. */
  lemma InsideRun(text: string, s: nat, a: nat, b: nat)
    requires s <= |text| && s <= a < RunEnd(text, s)
    requires a <= b <= |text| && forall k :: a <= k < b ==> !IsSpace(text[k])
    ensures b <= RunEnd(text, s)
  {
  }

  /** Two run ends inside one run coincide. */
  lemma RunEndInside(text: string, p: nat, q: nat)
    requires p <= |text| && p <= q <= RunEnd(text, p)
    ensures RunEnd(text, q) == RunEnd(text, p)
    decreases RunEnd(text, p) - q
  {
    if q < RunEnd(text, p) {
      RunEndInside(text, p, q + 1);
    }
  }

  /** The whitespace-delimited tokens of `text[p..]` (as `str.split()` gives them). */
  function TokensFrom(text: string, p: nat): (toks: seq<string>)
    requires p <= |text|
    ensures forall i :: 0 <= i < |toks| ==> |toks[i]| > 0 && forall k :: 0 <= k < |toks[i]| ==> !IsSpace(toks[i][k])
    decreases |text| - p
  {
    if p == |text| then []
    else if IsSpace(text[p]) then TokensFrom(text, p + 1)
    else [text[p..RunEnd(text, p)]] + TokensFrom(text, RunEnd(text, p))
  }

  function Tokens(text: string): seq<string> {
    TokensFrom(text, 0)
  }

  /** The run from `p` ends at `e` when `e` is the first space (or the end) after `p`. */
  lemma RunEndIs(text: string, p: nat, e: nat)
    requires p <= e <= |text|
    requires forall k :: p <= k < e ==> !IsSpace(text[k])
    requires e == |text| || IsSpace(text[e])
    ensures RunEnd(text, p) == e
  {
  }

  /** Runs of `y` are runs of `x + y`, shifted by `|x|`. */
  lemma RunEndShift(x: string, y: string, p: nat)
    requires p < |y|
    ensures RunEnd(x + y, |x| + p) == |x| + RunEnd(y, p)
  {
    var e := RunEnd(y, p);
    assert forall k :: |x| + p <= k < |x| + e ==> (x + y)[k] == y[k - |x|];
    assert e < |y| ==> (x + y)[|x| + e] == y[e];
    RunEndIs(x + y, |x| + p, |x| + e);
  }

  /** The tokens of `x + y` from inside `y` are those of `y`. */
  lemma {:induction false} TokensShift(x: string, y: string, p: nat)
    requires p <= |y|
    ensures TokensFrom(x + y, |x| + p) == TokensFrom(y, p)
    decreases |y| - p
  {
    if p == |y| {
      assert TokensFrom(x + y, |x| + p) == [];
    } else if IsSpace(y[p]) {
      TokensShift(x, y, p + 1);
      SpaceShift(x, y, p);
    } else {
      TokensShift(x, y, RunEnd(y, p));
      RunShift(x, y, p);
    }
  }

  lemma SpaceShift(x: string, y: string, p: nat)
    requires p < |y| && IsSpace(y[p])
    ensures TokensFrom(x + y, |x| + p) == TokensFrom(x + y, |x| + p + 1)
  {
    assert (x + y)[|x| + p] == y[p];
  }

  lemma RunShift(x: string, y: string, p: nat)
    requires p < |y| && !IsSpace(y[p])
    ensures TokensFrom(x + y, |x| + p) == [y[p..RunEnd(y, p)]] + TokensFrom(x + y, |x| + RunEnd(y, p))
  {
    var e := RunEnd(y, p);
    assert (x + y)[|x| + p] == y[p];
    RunEndShift(x, y, p);
    assert (x + y)[|x| + p..|x| + e] == y[p..e];
  }

  /** A space-free word followed by a space is the first token. */
  lemma TokensCons(w: string, rest: string)
    requires |w| > 0 && forall k :: 0 <= k < |w| ==> !IsSpace(w[k])
    ensures Tokens(w + " " + rest) == [w] + Tokens(rest)
  {
    var text := w + " " + rest;
    assert text[|w|] == ' ';
    assert text[0] == w[0];
    assert RunEnd(text, 0) == |w| by {
      assert forall k :: 0 <= k < |w| ==> text[k] == w[k];
    }
    assert text[..|w|] == w;
    assert TokensFrom(text, 0) == [w] + TokensFrom(text, |w|);
    assert TokensFrom(text, |w|) == TokensFrom(text, |w| + 1);
    assert text == (w + " ") + rest;
    TokensShift(w + " ", rest, 0);
  }

  /** A non-empty space-free text is a single token. */
  lemma FinalToken(w: string)
    requires |w| > 0 && forall k :: 0 <= k < |w| ==> !IsSpace(w[k])
    ensures Tokens(w) == [w]
  {
    assert RunEnd(w, 0) == |w|;
    assert TokensFrom(w, |w|) == [];
    assert w[0..|w|] == w;
  }

  /** `' '.join(parts).split() == parts` for non-empty space-free parts. */
  lemma {:induction false} TokensOfJoin(parts: seq<string>)
    requires |parts| >= 1
    requires forall i :: 0 <= i < |parts| ==> |parts[i]| > 0 && forall k :: 0 <= k < |parts[i]| ==> !IsSpace(parts[i][k])
    ensures Tokens(Join(' ', parts)) == parts
  {
    if |parts| == 1 {
      FinalToken(parts[0]);
    } else {
      TokensOfJoin(parts[1..]);
      TokensCons(parts[0], Join(' ', parts[1..]));
      assert [parts[0]] + parts[1..] == parts;
    }
  }

  /** `t` occurs in `s` at position `a`. */
  predicate OccursAt(s: string, a: int, t: string) {
    0 <= a && a + |t| <= |s| && s[a..a + |t|] == t
  }
}
