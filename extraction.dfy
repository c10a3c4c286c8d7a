/** The generic summariser `extract` (advertools/extract.py) and its two thin callers
    `extract_hashtags` and `extract_mentions`.

    A summary of feature `F` holds the per-record match lists `F_s`, their concatenation
    `F_s_flat`, the per-record counts `F_counts`, the count-frequency table `F_freq`, the
    frequency ranking `top_F_s` and an overview of totals. */
module Extraction {
  import opened Wrappers
  import opened Seqs
  import opened Strings
  import opened Counting

  /** The exceptions the extractors raise. */
  datatype Error =
    | ZeroDivisionError      // `len(flat) / len(text_list)` with no records
    | KeyError(key: string)  // an emoji the taxonomy table does not know
    | ValueError(key: string) // a character `unicodedata.name` has no name for
    | TypeError(key: string)  // a match passed to `unicodedata.name` that is not one character

  /** The regular-expression engine, `re.findall(pattern, text)`, with the pattern given
      as its source text. Only the list-of-strings results of one-group or group-less
      patterns reach the summaries. */
  type FindAll = (string, string) -> seq<string>

  /** The pattern constants the extractors are configured with. */
  datatype Patterns = Patterns(
    hashtag: string,
    mention: string,
    currency: string,
    currencyRaw: string,
    exclamationMark: string,
    exclamation: string,
    questionMark: string,
    question: string,
    url: string,
    emoji: string)

  datatype Overview = Overview(numPosts: nat, numItems: nat, perPost: real, unique: nat)

  datatype Summary<T> = Summary(
    lists: seq<seq<T>>,         // F_s
    flat: seq<T>,               // F_s_flat
    counts: seq<nat>,           // F_counts
    freq: seq<(nat, nat)>,      // F_freq
    top: seq<(T, nat)>,         // top_F_s
    overview: Overview)

  /** `[item for sublist in xss for item in sublist]`. */
  function Flatten<T>(xss: seq<seq<T>>): seq<T> {
    if xss == [] then [] else xss[0] + Flatten(xss[1..])
  }

  /** `[len(x) for x in xss]`. */
  function Counts<T>(xss: seq<seq<T>>): seq<nat> {
    seq(|xss|, i requires 0 <= i < |xss| => |xss[i]|)
  }

  /** The flattened list is as long as the counts add up to. */
  lemma {:induction false} FlattenLength<T>(xss: seq<seq<T>>)
    ensures |Flatten(xss)| == Sum(Counts(xss))
  {
    if xss != [] {
      FlattenLength(xss[1..]);
      assert Counts(xss)[1..] == Counts(xss[1..]);
    }
  }

  lemma {:induction false} FlattenAppend<T>(a: seq<seq<T>>, b: seq<seq<T>>)
    ensures Flatten(a + b) == Flatten(a) + Flatten(b)
  {
    if a == [] {
      assert a + b == b;
    } else {
      assert (a + b)[1..] == a[1..] + b;
      FlattenAppend(a[1..], b);
    }
  }

  /** A value occurs in the flattened list exactly when it occurs in some record's list. */
  lemma {:induction false} InFlatten<T>(xss: seq<seq<T>>, x: T)
    ensures x in Flatten(xss) <==> exists i :: 0 <= i < |xss| && x in xss[i]
  {
    if xss != [] {
      InFlatten(xss[1..], x);
      if x in Flatten(xss[1..]) {
        var i :| 0 <= i < |xss[1..]| && x in xss[1..][i];
        assert x in xss[i + 1];
      }
      if exists i :: 0 <= i < |xss| && x in xss[i] {
        var i :| 0 <= i < |xss| && x in xss[i];
        if i > 0 {
          assert x in xss[1..][i - 1];
        }
      }
    }
  }

  /** Mapping each record's list and then flattening is mapping the flattened list. */
  lemma {:induction false} FlattenMap<A, B>(f: A -> B, xss: seq<seq<A>>)
    ensures Flatten(MapLists(f, xss)) == Map(f, Flatten(xss))
  {
    if xss != [] {
      FlattenMap(f, xss[1..]);
      assert MapLists(f, xss)[1..] == MapLists(f, xss[1..]);
    }
  }

  /** Cuts `flat` back into consecutive lists of the given lengths. */
  function Unflatten<T>(flat: seq<T>, counts: seq<nat>): seq<seq<T>>
    requires Sum(counts) == |flat|
  {
    if counts == [] then [] else [flat[..counts[0]]] + Unflatten(flat[counts[0]..], counts[1..])
  }

  /** The flat list and the counts together determine the per-record lists: `F_s_flat`
      is the record-order concatenation that `F_counts` cuts back into `F_s`. */
  lemma {:induction false} UnflattenFlatten<T>(xss: seq<seq<T>>)
    ensures Sum(Counts(xss)) == |Flatten(xss)|
    ensures Unflatten(Flatten(xss), Counts(xss)) == xss
  {
    FlattenLength(xss);
    if xss != [] {
      UnflattenFlatten(xss[1..]);
      assert Counts(xss)[1..] == Counts(xss[1..]);
      assert Flatten(xss)[..|xss[0]|] == xss[0];
      assert Flatten(xss)[|xss[0]|..] == Flatten(xss[1..]);
    }
  }

  /** Cutting a list by counts and flattening again gives the list back, cut into the given counts. */
  lemma {:induction false} FlattenUnflatten<T>(flat: seq<T>, counts: seq<nat>)
    requires Sum(counts) == |flat|
    ensures Flatten(Unflatten(flat, counts)) == flat
    ensures Counts(Unflatten(flat, counts)) == counts
  {
    if counts != [] {
      FlattenUnflatten(flat[counts[0]..], counts[1..]);
      var u := Unflatten(flat, counts);
      assert u[1..] == Unflatten(flat[counts[0]..], counts[1..]);
      assert flat == flat[..counts[0]] + flat[counts[0]..];
      assert Counts(u)[1..] == Counts(u[1..]);
    }
  }

  /** `items / posts` as a Python true division: the ratio that, times the number of
      records, gives back the number of matches. */
  function Ratio(items: nat, posts: nat): (r: real)
    requires posts > 0
    ensures r * (posts as real) == items as real
    ensures r >= 0.0
  {
    items as real / posts as real
  }

  /** What a summary of `lists` over `numPosts` records holds:
      - `F_s` is `lists` and `F_s_flat` its concatenation in record order;
      - `F_counts` has one entry per record, the length of its list, and sums to `|F_s_flat|`;
      - `F_freq` is the count-frequency table of `F_counts`;
      - `top_F_s` is the frequency ranking of `F_s_flat`;
      - the overview has the number of records, `|F_s_flat|`, the per-record ratio and
        the number of distinct values (which is also `|top_F_s|`). */
  ghost predicate IsSummaryOf<T(!new)>(sm: Summary<T>, lists: seq<seq<T>>, numPosts: nat) {
    && sm.lists == lists
    && sm.flat == Flatten(lists)
    && |sm.counts| == |lists|
    && (forall i :: 0 <= i < |lists| ==> sm.counts[i] == |lists[i]|)
    && Sum(sm.counts) == |sm.flat|
    && IsFrequencyTableOf(sm.freq, sm.counts)
    && IsRankingOf(sm.top, sm.flat)
    && sm.overview.numPosts == numPosts
    && sm.overview.numItems == |sm.flat|
    && numPosts > 0 && sm.overview.perPost == Ratio(|sm.flat|, numPosts)
    && sm.overview.unique == |set x | x in sm.flat|
    && sm.overview.unique == |sm.top|
  }

  /** The summary dictionary built at the end of `extract`; the division by the number of
      records raises `ZeroDivisionError` when there are none. */
  function Summarize<T(==,!new)>(lists: seq<seq<T>>, numPosts: nat): (r: Result<Summary<T>, Error>)
    ensures r.Failure? <==> numPosts == 0
    ensures r.Failure? ==> r.error == ZeroDivisionError
    ensures r.Success? ==> IsSummaryOf(r.value, lists, numPosts)
  {
    if numPosts == 0 then Failure(ZeroDivisionError)
    else
      var flat := Flatten(lists);
      var sm := Summary(lists, flat, Counts(lists), FrequencyTable(Counts(lists)), Top(flat),
        Overview(numPosts, |flat|, Ratio(|flat|, numPosts), |set x | x in flat|));
      SummaryHolds(sm, lists, numPosts);
      Success(sm)
  }


  lemma SummaryHolds<T(!new)>(sm: Summary<T>, lists: seq<seq<T>>, numPosts: nat)
    requires numPosts > 0
    requires sm == Summary(lists, Flatten(lists), Counts(lists), FrequencyTable(Counts(lists)), Top(Flatten(lists)),
      Overview(numPosts, |Flatten(lists)|, Ratio(|Flatten(lists)|, numPosts), |set x | x in Flatten(lists)|))
    ensures IsSummaryOf(sm, lists, numPosts)
  {
    FlattenLength(lists);
  }

  /** The `F_freq` table of a summary accounts for every list once: when there is one list
      per record, its counts add up to the number of records. */
  lemma FrequenciesCoverRecords<T(!new)>(sm: Summary<T>, lists: seq<seq<T>>, numPosts: nat)
    requires IsSummaryOf(sm, lists, numPosts)
    requires |lists| == numPosts
    ensures Total(sm.freq) == sm.overview.numPosts
  {
  }

  /** `text_list` of `extract`: a list of texts, or one text standing for a one-element list. */
  datatype Texts = Text(text: string) | TextList(texts: seq<string>)

  function AsList(t: Texts): seq<string> {
    match t
    case Text(s) => [s]
    case TextList(ts) => ts
  }

  /** The records a specialised extractor iterates over with `for text in text_list`:
      the texts of a list, or the characters of a single text, each as a one-character
      string. */
  function Iterated(t: Texts): (r: seq<string>)
    ensures t.TextList? ==> r == t.texts
    ensures t.Text? ==> |r| == |t.text| && forall i :: 0 <= i < |t.text| ==> r[i] == [t.text[i]]
  {
    match t
    case Text(s) => seq(|s|, i requires 0 <= i < |s| => [s[i]])
    case TextList(ts) => ts
  }

  /** `[re.findall(pattern, text.lower()) for text in texts]`. */
  function LowerMatches(findall: FindAll, pattern: string, texts: seq<string>): (r: seq<seq<string>>)
    ensures |r| == |texts|
    ensures forall i :: 0 <= i < |texts| ==> r[i] == findall(pattern, Lower(texts[i]))
  {
    Map((t: string) => findall(pattern, Lower(t)), texts)
  }

  /** `[re.findall(pattern, text) for text in texts]`, on the original case. */
  function Matches(findall: FindAll, pattern: string, texts: seq<string>): (r: seq<seq<string>>)
    ensures |r| == |texts|
    ensures forall i :: 0 <= i < |texts| ==> r[i] == findall(pattern, texts[i])
  {
    Map((t: string) => findall(pattern, t), texts)
  }

  /** The per-record match lists `extract` summarises: the caller's `extracted` lists,
      unless that argument is missing or empty (`if not extracted`), in which case the
      pattern is applied to each lower-cased text. */
  function PerRecordMatches<T>(texts: seq<string>, findall: string -> seq<T>, extracted: Option<seq<seq<T>>>): seq<seq<T>> {
    if extracted.None? || extracted.value == [] then Map((t: string) => findall(Lower(t)), texts)
    else extracted.value
  }

  /** `extract(text_list, regex, key_name, extracted)`. */
  function Extract<T(==,!new)>(texts: Texts, findall: string -> seq<T>, extracted: Option<seq<seq<T>>>): (r: Result<Summary<T>, Error>)
    ensures r.Failure? <==> |AsList(texts)| == 0
    ensures r.Failure? ==> r.error == ZeroDivisionError
    ensures r.Success? ==> IsSummaryOf(r.value, r.value.lists, |AsList(texts)|)
    ensures r.Success? && (extracted.None? || extracted.value == []) ==>
              (|r.value.lists| == |AsList(texts)| &&
               forall i :: 0 <= i < |AsList(texts)| ==> r.value.lists[i] == findall(Lower(AsList(texts)[i])))
    ensures r.Success? && extracted.Some? && extracted.value != [] ==> r.value.lists == extracted.value
  {
    var list := AsList(texts);
    Summarize(PerRecordMatches(list, findall, extracted), |list|)
  }

  /** The keys of the summary dictionary for feature `keyName`. */
  function SummaryKeys(keyName: string): seq<string> {
    [keyName + "s", keyName + "s_flat", keyName + "_counts", keyName + "_freq", "top_" + keyName + "s", "overview"]
  }

  /** The keys of its `overview` dictionary. */
  function OverviewKeys(keyName: string): seq<string> {
    ["num_posts", "num_" + keyName + "s", keyName + "s_per_post", "unique_" + keyName + "s"]
  }

  /** Whatever the feature name, the six summary keys are distinct, so no field of the
      summary dictionary overwrites another. */
  lemma SummaryKeysDistinct(keyName: string)
    ensures NoDup(SummaryKeys(keyName))
  {
    var ks := SummaryKeys(keyName);
    var n := |keyName|;
    assert ks[0][n] == 's' && ks[1][n + 5] == 't' && ks[2][n + 6] == 's' && ks[3][n + 4] == 'q';
    assert ks[4][n + 4] == 's' && ks[5][7] == 'w';
    assert |ks[0]| == n + 1 && |ks[1]| == n + 6 && |ks[2]| == n + 7 && |ks[3]| == n + 5 && |ks[4]| == n + 5 && |ks[5]| == 8;
  }

  /** The four overview keys are distinct exactly when the feature is not named "post":
      for "post", `'num_' + key_name + 's'` is `'num_posts'` and the number of matches
      overwrites the number of records. */
  lemma OverviewKeysDistinct(keyName: string)
    ensures NoDup(OverviewKeys(keyName)) <==> keyName != "post"
  {
    var ks := OverviewKeys(keyName);
    var n := |keyName|;
    assert |ks[0]| == 9 && |ks[1]| == n + 5 && |ks[2]| == n + 10 && |ks[3]| == n + 8;
    assert ks[0][0] == 'n' && ks[3][0] == 'u';
    if keyName == "post" {
      assert ks[1] == "num_posts";
    } else if n == 4 {
      assert ks[1][4..8] == keyName;
      assert ks[0][4..8] == "post";
    }
  }

  /** `extract_hashtags(text_list)`. */
  function ExtractHashtags(texts: Texts, findall: FindAll, patterns: Patterns): (r: Result<Summary<string>, Error>)
    ensures r.Failure? <==> |AsList(texts)| == 0
    ensures r.Success? ==> IsSummaryOf(r.value, r.value.lists, |AsList(texts)|)
    ensures r.Success? ==> r.value.lists == LowerMatches(findall, patterns.hashtag, AsList(texts))
  {
    Extract(texts, (t: string) => findall(patterns.hashtag, t), None)
  }

  /** `extract_mentions(text_list)`. */
  function ExtractMentions(texts: Texts, findall: FindAll, patterns: Patterns): (r: Result<Summary<string>, Error>)
    ensures r.Failure? <==> |AsList(texts)| == 0
    ensures r.Success? ==> IsSummaryOf(r.value, r.value.lists, |AsList(texts)|)
    ensures r.Success? ==> r.value.lists == LowerMatches(findall, patterns.mention, AsList(texts))
  {
    Extract(texts, (t: string) => findall(patterns.mention, t), None)
  }
}
