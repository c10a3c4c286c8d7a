/** `extract_emoji` (advertools/extract.py): the emoji summary, plus the name, group and
    sub-group of every emoji from the emoji taxonomy table, with a ranking of each. */
module Emoji {
  import opened Wrappers
  import opened Seqs
  import opened Counting
  import opened Extraction
  import opened Enrichment

  /** An entry of the emoji taxonomy table. */
  datatype EmojiEntry = EmojiEntry(name: string, group: string, subGroup: string)

  function EntryName(en: EmojiEntry): string { en.name }
  function EntryGroup(en: EmojiEntry): string { en.group }
  function EntrySubGroup(en: EmojiEntry): string { en.subGroup }

  /** The parts of the emoji summary that come from the taxonomy table. */
  datatype Taxonomic = Taxonomic(
    text: seq<seq<string>>,             // emoji_text
    flatText: seq<string>,              // emoji_flat_text
    topText: seq<(string, nat)>,        // top_emoji_text
    topGroups: seq<(string, nat)>,      // top_emoji_groups
    topSubGroups: seq<(string, nat)>)   // top_emoji_sub_groups

  datatype EmojiSummary = EmojiSummary(
    emoji: Summary<string>,   // emoji, emoji_flat, emoji_counts, emoji_freq, top_emoji, overview
    taxonomic: Taxonomic)

  /** `EMOJI_ENTRIES[em]`: a missing emoji is a `KeyError`, not a skip. */
  function EntryOf(table: map<string, EmojiEntry>, em: string): (r: Result<EmojiEntry, Error>)
    ensures r.Success? <==> em in table
    ensures r.Success? ==> r.value == table[em]
    ensures r.Failure? ==> r.error == KeyError(em)
  {
    if em in table then Success(table[em]) else Failure(KeyError(em))
  }

  /** The table entries of a list of emoji that are all in the table. */
  function Taxonomy(table: map<string, EmojiEntry>, ems: seq<string>): (r: seq<EmojiEntry>)
    requires forall k :: 0 <= k < |ems| ==> ems[k] in table
    ensures |r| == |ems|
    ensures forall k :: 0 <= k < |ems| ==> r[k] == table[ems[k]]
  {
    seq(|ems|, k requires 0 <= k < |ems| => table[ems[k]])
  }

  /** `[re.findall(EMOJI, text.lower()) for text in text_list]`. */
  function EmojiLists(texts: Texts, findall: FindAll, patterns: Patterns): seq<seq<string>> {
    LowerMatches(findall, patterns.emoji, Iterated(texts))
  }

  function Lookup(table: map<string, EmojiEntry>): string -> Result<EmojiEntry, Error> {
    em => EntryOf(table, em)
  }

  /** A successful lookup of the flat list finds every emoji, with its table entry. */
  lemma FlatLookup(table: map<string, EmojiEntry>, flat: seq<string>, entries: seq<EmojiEntry>)
    requires Traverse(Lookup(table), flat) == Success(entries)
    ensures forall k :: 0 <= k < |flat| ==> flat[k] in table
    ensures entries == Taxonomy(table, flat)
  {
    assert forall k :: 0 <= k < |flat| ==> Lookup(table)(flat[k]) == Success(entries[k]);
  }

  /** A failed lookup of the flat list reports its first emoji missing from the table. */
  lemma FlatLookupFails(table: map<string, EmojiEntry>, flat: seq<string>, e: Error)
    requires Traverse(Lookup(table), flat) == Failure(e)
    ensures e.KeyError? && e.key in flat && e.key !in table
    ensures forall k :: 0 <= k < FirstIndex(flat, e.key) ==> flat[k] in table
  {
    var m :| 0 <= m < |flat| && Lookup(table)(flat[m]) == Failure(e) &&
             forall i :: 0 <= i < m ==> Lookup(table)(flat[i]).Success?;
    FirstIndexIs(flat, flat[m], m);
  }

  /** The per-record names line up with the per-record emoji. */
  lemma RecordLookup(table: map<string, EmojiEntry>, lists: seq<seq<string>>, perRecord: seq<seq<EmojiEntry>>)
    requires TraverseLists(Lookup(table), lists) == Success(perRecord)
    ensures var text := MapLists(EntryName, perRecord);
            |text| == |lists| &&
            forall i :: 0 <= i < |lists| ==> (|text[i]| == |lists[i]| &&
              forall j :: 0 <= j < |lists[i]| ==> lists[i][j] in table && text[i][j] == table[lists[i][j]].name)
  {
    forall i | 0 <= i < |lists|
      ensures |perRecord[i]| == |lists[i]|
      ensures forall j :: 0 <= j < |lists[i]| ==> lists[i][j] in table && perRecord[i][j] == table[lists[i][j]]
    {
      assert Traverse(Lookup(table), lists[i]) == Success(perRecord[i]);
      assert forall j :: 0 <= j < |lists[i]| ==> Lookup(table)(lists[i][j]) == Success(perRecord[i][j]);
    }
  }

  /** The name of every emoji, per record and flat, and the rankings of the names, groups
      and sub-groups. The flat list is looked up first: the error is the `KeyError` of
      its first emoji missing from the table. */
  function Describe(lists: seq<seq<string>>, table: map<string, EmojiEntry>): (r: Result<Taxonomic, Error>)
    ensures r.Success? <==> forall k :: 0 <= k < |Flatten(lists)| ==> Flatten(lists)[k] in table
    ensures r.Failure? ==> (r.error.KeyError? &&
              r.error.key in Flatten(lists) && r.error.key !in table &&
              forall k :: 0 <= k < FirstIndex(Flatten(lists), r.error.key) ==> Flatten(lists)[k] in table)
    ensures r.Success? ==> (|r.value.text| == |lists| &&
              forall i :: 0 <= i < |lists| ==> (|r.value.text[i]| == |lists[i]| &&
                forall j :: 0 <= j < |lists[i]| ==> lists[i][j] in table && r.value.text[i][j] == table[lists[i][j]].name))
    ensures r.Success? ==> r.value.flatText == Flatten(r.value.text)
    ensures r.Success? ==> (
              && r.value.flatText == Map(EntryName, Taxonomy(table, Flatten(lists)))
              && IsRankingOf(r.value.topText, r.value.flatText)
              && IsRankingOf(r.value.topGroups, Map(EntryGroup, Taxonomy(table, Flatten(lists))))
              && IsRankingOf(r.value.topSubGroups, Map(EntrySubGroup, Taxonomy(table, Flatten(lists)))))
  {
    var flat := Flatten(lists);
    match Traverse(Lookup(table), flat)
    case Failure(e) =>
      FlatLookupFails(table, flat, e);
      Failure(e)
    case Success(entries) =>
      FlatLookup(table, flat, entries);
      Success(Named(lists, table))
  }

  /** The table-derived fields when every emoji is in the table: the names per record and
      flat, in the order of the emoji, and the rankings of the names, groups and
      sub-groups. */
  function Named(lists: seq<seq<string>>, table: map<string, EmojiEntry>): (t: Taxonomic)
    requires forall k :: 0 <= k < |Flatten(lists)| ==> Flatten(lists)[k] in table
    ensures |t.text| == |lists| &&
            forall i :: 0 <= i < |lists| ==> (|t.text[i]| == |lists[i]| &&
              forall j :: 0 <= j < |lists[i]| ==> lists[i][j] in table && t.text[i][j] == table[lists[i][j]].name)
    ensures t.flatText == Flatten(t.text)
    ensures t.flatText == Map(EntryName, Taxonomy(table, Flatten(lists)))
    ensures IsRankingOf(t.topText, t.flatText)
    ensures IsRankingOf(t.topGroups, Map(EntryGroup, Taxonomy(table, Flatten(lists))))
    ensures IsRankingOf(t.topSubGroups, Map(EntrySubGroup, Taxonomy(table, Flatten(lists))))
  {
    var entries := Taxonomy(table, Flatten(lists));
    AllFound(table, lists);
    var perRecord := TraverseLists(Lookup(table), lists).value;
    RecordLookup(table, lists, perRecord);
    FlattenMap(EntryName, perRecord);
    var flatText := Map(EntryName, entries);
    Taxonomic(MapLists(EntryName, perRecord), flatText, Top(flatText),
      Top(Map(EntryGroup, entries)), Top(Map(EntrySubGroup, entries)))
  }

  /** With every emoji in the table, the per-record lookups succeed and their entries,
      flattened, are the entries of the flat list. */
  lemma AllFound(table: map<string, EmojiEntry>, lists: seq<seq<string>>)
    requires forall k :: 0 <= k < |Flatten(lists)| ==> Flatten(lists)[k] in table
    ensures TraverseLists(Lookup(table), lists).Success?
    ensures Flatten(TraverseLists(Lookup(table), lists).value) == Taxonomy(table, Flatten(lists))
  {
    var flat := Flatten(lists);
    assert forall k :: 0 <= k < |flat| ==> Lookup(table)(flat[k]).Success?;
    FlatLookup(table, flat, Traverse(Lookup(table), flat).value);
  }

  /** `extract_emoji(text_list)`. The taxonomy table is consulted before the per-record
      ratio is computed, so when some emoji is missing its `KeyError` is what is raised.
      With no records there is nothing to look up, and the division is a
      `ZeroDivisionError`. */
  function ExtractEmoji(texts: Texts, findall: FindAll, patterns: Patterns,
                        table: map<string, EmojiEntry>): (r: Result<EmojiSummary, Error>)
    ensures r.Success? <==> Describe(EmojiLists(texts, findall, patterns), table).Success? && |Iterated(texts)| > 0
    ensures |Iterated(texts)| == 0 ==> r == Failure(ZeroDivisionError)
    ensures r.Failure? && Describe(EmojiLists(texts, findall, patterns), table).Failure? ==>
              r.error == Describe(EmojiLists(texts, findall, patterns), table).error
    ensures r.Failure? && Describe(EmojiLists(texts, findall, patterns), table).Success? ==>
              r.error == ZeroDivisionError
    ensures r.Success? ==> IsSummaryOf(r.value.emoji, EmojiLists(texts, findall, patterns), |Iterated(texts)|)
    ensures r.Success? ==> Describe(EmojiLists(texts, findall, patterns), table) == Success(r.value.taxonomic)
  {
    var lists := EmojiLists(texts, findall, patterns);
    match Describe(lists, table)
    case Failure(e) => Failure(e)
    case Success(tx) =>
      match Summarize(lists, |Iterated(texts)|)
      case Failure(e) => Failure(e)
      case Success(sm) => Success(EmojiSummary(sm, tx))
  }

  /** All four rankings of an emoji summary account for the same number of emoji. */
  lemma RankingsAgree(texts: Texts, findall: FindAll, patterns: Patterns, table: map<string, EmojiEntry>,
                      sm: EmojiSummary)
    requires ExtractEmoji(texts, findall, patterns, table) == Success(sm)
    ensures Total(sm.emoji.top) == sm.emoji.overview.numItems
    ensures Total(sm.taxonomic.topText) == sm.emoji.overview.numItems
    ensures Total(sm.taxonomic.topGroups) == sm.emoji.overview.numItems
    ensures Total(sm.taxonomic.topSubGroups) == sm.emoji.overview.numItems
  {
  }
}
