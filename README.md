# advertools text-feature extractors, modelled in Dafny

This project models `advertools/extract.py`, the text-feature extractors of advertools.
They summarise social posts, page titles and other short texts.

At the centre is the generic summariser `extract`. It takes one list of matches per
record (a hashtag, a mention, an emoji, a URL and so on) and returns the following fields
for a feature `F`:

- the per-record lists `F_s`;
- their concatenation `F_s_flat`;
- the per-record counts `F_counts`;
- the count-frequency table `F_freq`, sorted ascending by count value;
- the ranking `top_F_s`, sorted descending by frequency, with ties in first-occurrence
  order, because `Counter` keeps insertion order and `sorted` is stable;
- an `overview` with the number of records, the number of matches, the matches per record
  and the number of distinct matches.

The specialised extractors sit on top of `extract`:

- hashtags and mentions call it directly;
- currency symbols, exclamation marks and question marks add the lower-cased Unicode name
  of every mark, plus the text matched around marks in the original-case texts;
- emoji add the name, group and sub-group of every emoji from the emoji taxonomy table,
  plus three more rankings;
- URLs are rewritten in place to carry an `http://` scheme when they start with `www` or
  `ftp`, and their hosts and top-level domains are ranked;
- words are found either as whole words or inside longer whitespace-free tokens, by an
  alternation pattern built from the chosen words;
- intense words are found with a pattern synthesised from `min_reps`, and each match is
  rebuilt from its three groups.

## How the model is organised

| module (file) | models |
|---|---|
| `Wrappers` (wrappers.dfy) | `Option` and `Result` |
| `Seqs` (seqs.dfy) | list helpers: `Map`, `Filter`, first index, sums |
| `Strings` (strings.dfy) | lower-casing, `'sep'.join`, `str.split`, `str.split(sep)[-1]`, whitespace-delimited tokens |
| `Decimal` (decimal.dfy) | `str(int)` and its inverse |
| `Counting` (counting.dfy) | `Counter(...).items()`, the two `sorted` calls on it |
| `Extraction` (extraction.dfy) | `extract`, `extract_hashtags`, `extract_mentions` |
| `Enrichment` (enrichment.dfy) | list comprehensions over lookups that may raise, and `unicodedata.name` |
| `Punctuation` (punctuation.dfy) | `extract_currency`, `extract_exclamations`, `extract_questions` |
| `Emoji` (emoji.dfy) | `extract_emoji` |
| `Urls` (urls.dfy) | `extract_urls`, the `urlparse(...).netloc` host rule |
| `Scanning` (scanning.dfy) | `re.findall` for patterns of the shape `\S*X\S*` |
| `Words` (words.dfy) | `extract_words` |
| `IntenseWords` (intense.dfy) | `extract_intense_words` |

The model makes these choices:

- **Failures are values.** An exception becomes a `Failure` of a `Result`:
  - no records at all is a `ZeroDivisionError` (from `len(flat) / len(text_list)`);
  - a mark without a Unicode name is a `ValueError`;
  - a match that is not one character, passed to `unicodedata.name`, is a `TypeError`;
  - an emoji missing from the taxonomy table is a `KeyError`.

  When several lookups fail, the error is the first failing match in record order,
  as with Python's list comprehensions.
- **The regular-expression engine is a parameter.** It is `findall(pattern, text)`, and
  the pattern constants are fields of a `Patterns` value. Three kinds of match are modelled
  concretely: the intense-word pattern, the substring-mode word pattern and the
  whole-word pattern. The first two are proved to report exactly the
  whitespace-delimited tokens that satisfy a predicate. The third reports only words
  that occur between two `\b` positions, resuming after each match.
- **Broadcasting and iteration differ.** `extract` turns a single text into a one-element
  list. The specialised extractors run `for text in text_list` themselves, and on a single
  text that loop visits its characters. `Texts` keeps both views: `AsList` is the
  broadcast, and `Iterated` is the loop.
- **The `if not extracted` fallback is modelled as written.** Both
  `extract_urls` and `extract_intense_words` pass an empty `extracted` when there is
  nothing to iterate over. `extract` then matches the lower-cased broadcast text itself.
- **The URL rewrite is imperative.** `extract_urls` rewrites each URL list in place.
  `Urls.NormalizeLists` is a method over arrays. It does not need the arrays to be
  distinct, because normalising twice is the same as normalising once.

The docstring of `extract_words` and its code disagree on substring-mode word matching
(advertools/extract.py:697-706). For the words `rain` and `snow` and the post
`there is rain, it is raining`, the docstring shows `['rain', 'raining']`. The pattern
`\S*rain\S*` built at advertools/extract.py:739 takes the whole whitespace-delimited
token, so it reports `rain,` and `raining`. The model follows the code
(`Words.SubstringMatchesAreTokens`, and `Words.SubstringModeOnRain` for this post).

## Model

| member | source | states |
|---|---|---|
| Counting.Distinct | advertools/extract.py:52 | the keys of `Counter(s)`: exactly the values of `s`, each once |
| Counting.DistinctInOrder | advertools/extract.py:52 | those keys are in first-occurrence order, the insertion order `Counter` keeps |
| Counting.CountItems | advertools/extract.py:49-52 | the tally loop behind `Counter(s)` yields exactly the items of the counter (`CounterItems`): the distinct values in first-occurrence order, each with its multiplicity |
| Counting.Tally | advertools/extract.py:49-52 | the loop ends with the keys in first-occurrence order and every value mapped to its number of occurrences |
| Counting.CounterTotal | advertools/extract.py:52 | the counts of `Counter(s)` add up to `len(s)` |
| Counting.ReorderedItemsTally | advertools/extract.py:52-54 | any reordering of the counter items tallies `s` and has one entry per distinct value |
| Counting.SortPermutes | advertools/extract.py:52-54 | the descending sort by count (`SortByCount`) is a permutation of the items |
| Counting.SortRanked | advertools/extract.py:52-54 | items in first-occurrence order come out of the stable descending sort by count ordered by count, with ties in first-occurrence order |
| Counting.Top | advertools/extract.py:52-54 | `top_F_s` tallies the flat list and is ranked by descending count, with ties broken by first occurrence; it has one entry per distinct value |
| Counting.SortValuePermutes | advertools/extract.py:49-51 | the sort by count value (`SortByValue`) is a permutation of the items |
| Counting.SortAscending | advertools/extract.py:49-51 | items with distinct count values come out of the sort strictly ascending |
| Counting.FrequencyTable | advertools/extract.py:49-51 | `F_freq` tallies the counts (each count value once, with its number of records, summing to the number of records) in strictly ascending order |
| Counting.NoDupCardinality | advertools/extract.py:59 | a list without repeats has as many elements as its set |
| Counting.TotalPermutation | advertools/extract.py:52-54 | sorting does not change the sum of the counts |
| Extraction.FlattenLength | advertools/extract.py:43-48 | `sum(F_counts) == len(F_s_flat)` |
| Extraction.FlattenAppend | advertools/extract.py:43 | flattening distributes over concatenation of record lists |
| Extraction.InFlatten | advertools/extract.py:43 | a value is in `F_s_flat` exactly when it is in some record's list |
| Extraction.FlattenMap | advertools/extract.py:211-217 | mapping every record's list and flattening equals mapping the flat list |
| Extraction.UnflattenFlatten | advertools/extract.py:43-48 | `F_s_flat` cut by `F_counts` gives back `F_s` |
| Extraction.FlattenUnflatten | advertools/extract.py:43-48 | cutting a flat list by counts that add up to its length, then flattening, gives the list and the counts back |
| Extraction.Ratio | advertools/extract.py:58 | the per-post ratio times the number of records is the number of matches, and it is never negative |
| Extraction.Summarize | advertools/extract.py:43-61 | no records is a `ZeroDivisionError`; otherwise the summary has the shape, counts, frequency table, ranking and overview described above |
| Extraction.FrequenciesCoverRecords | advertools/extract.py:49-51 | with one list per record, the frequencies of `F_freq` add up to `num_posts` |
| Extraction.Extract | advertools/extract.py:17-62 | a single text is broadcast to one record; without `extracted` (or with an empty one) the lists are the matches of each lower-cased text, otherwise `extracted` itself; the summary holds; no records fails |
| Extraction.SummaryKeysDistinct | advertools/extract.py:45-55 | the six summary keys are distinct for every feature name |
| Extraction.OverviewKeysDistinct | advertools/extract.py:55-60 | the four overview keys are distinct exactly when the feature name is not `post` |
| Extraction.ExtractHashtags | advertools/extract.py:397 | the summary of hashtag matches in the lower-cased records |
| Extraction.ExtractMentions | advertools/extract.py:454 | the summary of mention matches in the lower-cased records |
| Enrichment.Traverse | advertools/extract.py:130-132 | a comprehension over a lookup that may raise: it succeeds exactly when every lookup does, with the results in order; otherwise it fails with the error of the first failing element |
| Enrichment.TraverseAppend | advertools/extract.py:130-132 | traversing a concatenation traverses the first part, then the second |
| Enrichment.TraverseLists | advertools/extract.py:216-217 | the per-record comprehension has one list per record; it fails exactly when the flat one does, with the same error, and otherwise flattens to the flat result |
| Enrichment.NameOf | advertools/extract.py:130 | `name(c).lower()`: a `TypeError` unless the match is one character, a `ValueError` when it has no name, otherwise its lower-cased name |
| Enrichment.Names | advertools/extract.py:130-132 | the name lists have the shape of the match lists (an empty record gives `[]`); they exist exactly when every match has a name; otherwise the error is that of the first nameless match in record order |
| Decimal.ParseIntToString | advertools/extract.py:133-135 | `str(n)` reads back as `n` and holds only digits and `-` |
| Strings.SplitJoin | advertools/extract.py:737-740 | splitting a `'|'.join` of parts without `|` gives the parts back |
| Strings.LastPieceOfSplit | advertools/extract.py:633 | `LastPiece` is the last element of `str.split(sep)` |
| Strings.LastPieceAfter | advertools/extract.py:633 | the last piece of `x + sep + t` is `t` whenever `t` holds no separator |
| Strings.LowerIsLower | advertools/extract.py:732-733 | lower-casing gives lower-case text, and lower-casing twice is lower-casing once |
| Punctuation.WindowPatternParses | advertools/extract.py:133-135 | the window pattern keeps `left_chars`, the currency pattern and `right_chars` recoverable |
| Punctuation.ExtractMarks | advertools/extract.py:129-137 | the mark summary is built first (no records fails); then the names, whose first failure is the result's error; then the context matches on each iterated original-case record |
| Punctuation.ExtractCurrency | advertools/extract.py:129-137 | as `ExtractMarks` for currency symbols; every record's surrounding text is matched with the one pattern `'.{0,' + str(left_chars) + '}' + CURRENCY_RAW + '.{0,' + str(right_chars) + '}'`, from which `WindowPatternParses` reads both widths and the symbol pattern back |
| Punctuation.ExtractExclamations | advertools/extract.py:342-347 | as `ExtractMarks` for exclamation marks, with the exclamation texts as context |
| Punctuation.ExtractQuestions | advertools/extract.py:555-560 | as `ExtractMarks` for question marks, with the question texts as context |
| Emoji.EntryOf | advertools/extract.py:211 | `EMOJI_ENTRIES[em]`: the entry, or a `KeyError` of that emoji |
| Emoji.Taxonomy | advertools/extract.py:211-213 | one table entry per emoji, in order |
| Emoji.FlatLookupFails | advertools/extract.py:211 | a failed lookup reports an emoji that is missing from the table, and every emoji before its first occurrence is known |
| Emoji.Describe | advertools/extract.py:211-234 | the names exist exactly when every emoji is in the table, otherwise a `KeyError` of the first missing one; `emoji_text` has the shape of the emoji lists; `emoji_flat_text` is its concatenation; the three extra rankings rank the names, groups and sub-groups |
| Emoji.Named | advertools/extract.py:211-234 | with every emoji in the table, `emoji_text` gives each emoji its name record by record, `emoji_flat_text` is its concatenation and the names of the flat entries, and the three rankings rank names, groups and sub-groups |
| Emoji.ExtractEmoji | advertools/extract.py:209-243 | a missing emoji is reported before the division by the number of records, and no records is a `ZeroDivisionError`; the emoji summary covers the lower-cased matches of each iterated record |
| Emoji.RankingsAgree | advertools/extract.py:223-234 | all four emoji rankings account for `num_emoji` matches |
| Urls.Normalize | advertools/extract.py:627-628 | a URL whose lower-case form starts with `www` or `ftp` gains `http://`; any other URL is unchanged |
| Urls.NormalizeIdempotent | advertools/extract.py:627-628 | a rewritten URL is never rewritten again |
| Urls.NormalizeList | advertools/extract.py:626-628 | one URL list is rewritten in place, element by element, with its length kept |
| Urls.NormalizeLists | advertools/extract.py:625-628 | every URL list is rewritten in place and no other object changes, even when lists are shared |
| Urls.RewrittenMatches | advertools/extract.py:624-628 | the lists built by the `findall` loop and rewritten in place are the matches of each record with every URL normalised |
| Urls.Host | advertools/extract.py:629 | the host never contains `/`, `?` or `#` |
| Urls.HostAfterScheme | advertools/extract.py:629 | the host of `scheme://rest` is `rest` up to its first `/`, `?` or `#` |
| Urls.HostOfNormalized | advertools/extract.py:627-629 | a URL given `http://` has the start of the original text as its host |
| Urls.Tld | advertools/extract.py:633 | a host without a dot is its own top-level domain |
| Urls.TldAfterLastDot | advertools/extract.py:633 | the top-level domain of `name.tld` is `tld` when `tld` has no dot, whatever dots `name` holds |
| Urls.ExtractUrls | advertools/extract.py:624-640 | the summary covers the rewritten URL lists of each iterated record (or the fallback matches when there are none); `top_domains` ranks the hosts of the rewritten URLs and `top_tlds` their top-level domains |
| Scanning.LastWitness | advertools/extract.py:739-740 | the last position in a range where the inner part can start, or none |
| Scanning.Spans | advertools/extract.py:739-740 | each match of a `\S*X\S*` scan covers a whole run, and its inner part starts at the last possible position |
| Scanning.SpansAreTokens | advertools/extract.py:739-740 | the texts a `\S*X\S*` scan reports are exactly the tokens whose run holds a possible inner part, in order |
| Words.WordPatternParses | advertools/extract.py:735-740 | the alternation pattern keeps the list of words, in order, in both modes |
| Words.ExtractWords | advertools/extract.py:729-742 | a single word is a one-element list; the records are iterated and lower-cased, and so are the words; the summary is of the matches of the pattern built from the lower-cased words |
| Words.WitnessInToken | advertools/extract.py:739-740 | a word starting inside a run occurs in that run's token |
| Words.TokenWordInRun | advertools/extract.py:739-740 | a word in a run's token starts inside the run |
| Words.SubstringMatchesAreTokens | advertools/extract.py:739-742 | for non-empty words without whitespace, the substring-mode matches (`SubstringMatches`) are exactly the tokens that contain one of the words, whole and in order |
| Words.SubstringModeOnRain | advertools/extract.py:697-706 | in substring mode `rain` in `there is rain, it is raining` gives `rain,` and `raining` |
| Words.FirstWholeWord | advertools/extract.py:736-737 | the alternation tries the branches in order: the result is the index of the first word occurring at the position between two `\b` boundaries, and none means that no word matches there |
| Words.WholeWordMatches | advertools/extract.py:736-737 | in whole-word mode every match is one of the words and occurs between two `\b` boundaries at some position of the scan; the scan finds nothing exactly when no word occurs whole anywhere |
| Words.WholeWordModeOnRain | advertools/extract.py:655-670 | in whole-word mode `rain` is found once in `there is rain, it is raining`, not at the start of `raining` |
| Words.ExtractedWordsAreLower | advertools/extract.py:732-742 | every extracted word is lower-case; in substring mode each record's matches are its tokens that contain a word; in whole-word mode each is one of the lower-cased words |
| Words.TokensAreSlices | advertools/extract.py:732 | every token of a lower-case text is lower-case |
| IntenseWords.Reps | advertools/extract.py:401 | `min_reps - 1` back-references, or none when `min_reps` is below 2 |
| IntenseWords.IntensePatternParses | advertools/extract.py:401 | the synthesised pattern asks for a run of `min_reps` equal characters (of one when `min_reps` is below one) |
| IntenseWords.GroupsOf | advertools/extract.py:401-402 | the three groups of a match join to its token; the middle one is not whitespace and the suffix starts with `min_reps - 1` copies of it |
| IntenseWords.IntenseGroups | advertools/extract.py:401-402 | every match holds a character that is not whitespace, followed by `min_reps - 1` copies of itself |
| IntenseWords.RepeatRuns | advertools/extract.py:401-402 | a run holds a place where the second group can start exactly when its token holds a run of `min_reps` equal characters |
| IntenseWords.IntenseMatchesAreTokens | advertools/extract.py:401-403 | the joined matches (`IntenseMatches`, the `''.join` of each group tuple) are exactly the tokens holding some character `min_reps` times in a row, in order; tokens with shorter runs are never reported |
| IntenseWords.WholeTextVerdict | advertools/extract.py:401-403 | a text without whitespace is matched whole when it has such a run, and not at all otherwise |
| IntenseWords.SooooIsIntense | advertools/extract.py:401-403 | with `min_reps=3`, `soooo` is reported |
| IntenseWords.SooIsNotIntense | advertools/extract.py:401-403 | with `min_reps=3`, `soo` is not reported |
| IntenseWords.ExtractIntenseWords | advertools/extract.py:400-405 | the summary covers the joined matches of each iterated record; with nothing to iterate over, a single `""` gives one empty list, and no records fails |

## Left out

- The regular-expression engine (`re.findall` and its backtracking) is a parameter, not a
  model, apart from the intense-word, substring-word and whole-word scans. The pattern constants
  `HASHTAG`, `MENTION`, `CURRENCY`, `CURRENCY_RAW`, `EXCLAMATION`, `EXCLAMATION_MARK`,
  `QUESTION`, `QUESTION_MARK`, `URL` and `EMOJI` are fields of `Patterns`. The modules
  that define them, advertools/regex.py and advertools/emoji.py, are not part of this
  model.
- `unicodedata.name` and `EMOJI_ENTRIES` are maps passed in as parameters. A key missing
  from either is an error path, not a precondition.
- `Strings.Lower` maps ASCII letters only. Python's `str.lower` also maps other letters
  and can change the length of a string.
- `re.IGNORECASE` on the word pattern is not modelled. Records and words are
  lower-cased first, so it matters only for letters outside ASCII.
- Words.WholeWordMatches: `\w` and `\b` follow ASCII letters, digits and `_` only. Python's
  Unicode word characters are not modelled. The empty word is excluded. For `''` the
  source builds `\b\b`, and `findall` reports an empty match at every word boundary and
  then moves on by one position. The model's scan, which resumes at the end of each
  match, does not cover empty matches.
- Words.SubstringMatchesAreTokens: `SubstringMatches` is the scan for non-empty words
  without whitespace only. A phrase such as `new york` is outside it. In
  `i love new york city`, the source's `\S*new york\S*` matches `new york`, across the
  space, which is not a token. The model's run-by-run scan never crosses whitespace, so
  it does not give that result. The empty word is outside it too. For `''`, `\S*\S*`
  matches every run, plus an empty string at each whitespace position and at the
  end of the text.
- Words.ExtractedWordsAreLower: it holds only when the engine gives the modelled scans for the
  pattern `extract_words` builds. It also needs non-empty words without whitespace. Words
  are inserted unescaped, so regex metacharacters in a word are not modelled.
- Words.WordPatternParses: it needs at least one word and no `|` inside a word, because a
  `|` inside a word cannot be told apart from the separator.
- Urls.Host: it follows the netloc rule of `urlsplit`:
  - the scheme is the text before the first `:` when it is a valid scheme;
  - the authority runs from `//` to the next `/`, `?` or `#`.

  It does not model the stripping of leading whitespace and control characters, the
  removal of tab, CR and LF, the validation of bracketed IPv6 hosts, or the `ValueError`
  that `_checknetloc` raises for a non-ASCII netloc whose NFKC normalisation brings in
  one of `/`, `?`, `#`, `@` or `:`.
- Extraction.Extract: the summary is a record with fixed fields, not a dictionary
  with keys built from `key_name`. The two differ only for `key_name='post'`. There,
  the source's `overview` writes `num_posts` twice, and the second write leaves
  `len(flat)` in place of the number of records. The model always keeps both numbers.
  `Extraction.OverviewKeysDistinct` proves that `post` is the only name that collides.
  No caller in advertools/extract.py passes it.
- The per-post ratio is an exact `real`. Floating-point rounding is not modelled.
- IntenseWords.ExtractIntenseWords: on the fallback path, the compiled pattern returns
  group tuples, not joined strings. The fallback only runs on `""` or on no records, where
  it finds nothing, so the model uses the joined matches there too.
- The `**kwargs` parameter of `extract` is not modelled, and neither is the choice between
  a pattern string and a compiled pattern. Both have no effect on the result.
- Default parameter values (`left_chars=20`, `right_chars=20`, `min_reps=3`,
  `entire_words_only=False`) are not modelled. A call that relies on them, such as
  `extract_currency(posts)` in the docstring at advertools/extract.py:79, is the
  modelled call with `20`, `20`, `3` or `False` passed explicitly.
- tests/test_serp.py is not part of this model. It exercises a search API client over the
  network.
