/** `extract_urls` (advertools/extract.py): URLs found in the original-case texts, those
    starting with `www` or `ftp` rewritten in place to carry an `http://` scheme, and
    rankings of their hosts and top-level domains. */
module Urls {
  import opened Wrappers
  import opened Seqs
  import opened Strings
  import opened Counting
  import opened Extraction

  /** `url.lower().startswith('www') or url.lower().startswith('ftp')`. */
  predicate NeedsScheme(url: string) {
    StartsWith(Lower(url), "www") || StartsWith(Lower(url), "ftp")
  }

  /** The rewrite applied to each URL: `'http://' + url` when it needs a scheme. */
  function Normalize(url: string): (r: string)
    ensures NeedsScheme(url) ==> r == "http://" + url
    ensures !NeedsScheme(url) ==> r == url
  {
    if NeedsScheme(url) then "http://" + url else url
  }

  /** A rewritten URL starts with `http://`, so it is never rewritten again. */
  lemma NormalizeIdempotent(url: string)
    ensures !NeedsScheme(Normalize(url)) || Normalize(url) == url
    ensures Normalize(Normalize(url)) == Normalize(url)
  {
    if NeedsScheme(url) {
      var n := Normalize(url);
      assert Lower(n)[0] == 'h';
    }
  }

  lemma NormalizeAllIdempotent(urls: seq<string>)
    ensures Map(Normalize, Map(Normalize, urls)) == Map(Normalize, urls)
  {
    forall k | 0 <= k < |urls| ensures Normalize(Normalize(urls[k])) == Normalize(urls[k]) {
      NormalizeIdempotent(urls[k]);
    }
  }

  /** The inner loop at extract.py:626-628: rewrites one list of URLs in place. */
  method NormalizeList(urllist: array<string>)
    modifies urllist
    ensures urllist[..] == Map(Normalize, old(urllist[..]))
  {
    for i := 0 to urllist.Length
      invariant forall k :: 0 <= k < i ==> urllist[k] == Normalize(old(urllist[k]))
      invariant forall k :: i <= k < urllist.Length ==> urllist[k] == old(urllist[k])
    {
      if NeedsScheme(urllist[i]) {
        urllist[i] := "http://" + urllist[i];
      }
    }
  }

  /** The nested loops at extract.py:625-628: every list is rewritten in place and no
      other object changes. Lists need not be distinct objects: a list that occurs twice
      is rewritten twice, which leaves it as after one pass. */
  method NormalizeLists(lists: seq<array<string>>)
    modifies set k | 0 <= k < |lists| :: lists[k]
    ensures forall k :: 0 <= k < |lists| ==> lists[k][..] == Map(Normalize, old(lists[k][..]))
  {
    for i := 0 to |lists|
      invariant forall k :: 0 <= k < i ==> lists[k][..] == Map(Normalize, old(lists[k][..]))
      invariant forall k :: i <= k < |lists| ==>
                  lists[k][..] == old(lists[k][..]) || lists[k][..] == Map(Normalize, old(lists[k][..]))
    {
      NormalizeAllIdempotent(old(lists[i][..]));
      NormalizeList(lists[i]);
    }
  }

  predicate IsSchemeChar(c: char) {
    ('a' <= c <= 'z') || ('A' <= c <= 'Z') || ('0' <= c <= '9') || c == '+' || c == '-' || c == '.'
  }

  /** `url[:i]` is a scheme for `urlsplit`: non-empty, starting with an ASCII letter, all
      scheme characters. */
  predicate IsScheme(s: string) {
    |s| > 0 && (('a' <= s[0] <= 'z') || ('A' <= s[0] <= 'Z')) && forall k :: 0 <= k < |s| ==> IsSchemeChar(s[k])
  }

  predicate EndsAuthority(c: char) {
    c == '/' || c == '?' || c == '#'
  }

  /** Index of the first `/`, `?` or `#` of `s` at or after `p`, or `|s|`. */
  function AuthorityEnd(s: string, p: nat): (e: nat)
    requires p <= |s|
    ensures p <= e <= |s|
    ensures forall k :: p <= k < e ==> !EndsAuthority(s[k])
    ensures e < |s| ==> EndsAuthority(s[e])
    decreases |s| - p
  {
    if p == |s| || EndsAuthority(s[p]) then p else AuthorityEnd(s, p + 1)
  }

  /** `urlparse(url).netloc`: when the text before the first `:` is a scheme, it is
      removed with the `:`; if what remains starts with `//`, the host runs from there
      to the first `/`, `?` or `#`; otherwise there is no host. */
  function Host(url: string): (h: string)
    ensures forall k :: 0 <= k < |h| ==> !EndsAuthority(h[k])
  {
    var i := FirstIndex(url, ':');
    var rest := if i < |url| && IsScheme(url[..i]) then url[i + 1..] else url;
    if StartsWith(rest, "//") then rest[2..AuthorityEnd(rest, 2)] else ""
  }

  /** The host of `scheme://authority…` is the authority, up to its first `/`, `?` or `#`. */
  lemma HostAfterScheme(scheme: string, rest: string)
    requires IsScheme(scheme)
    ensures Host(scheme + "://" + rest) == rest[..AuthorityEnd(rest, 0)]
  {
    var url := scheme + "://" + rest;
    var after := "//" + rest;
    assert url == scheme + [':'] + after;
    SchemeColon(scheme, after);
    assert url[..|scheme|] == scheme;
    assert url[|scheme| + 1..] == after;
    SlashesHost(rest);
  }

  /** After `//`, the host is the authority up to its first `/`, `?` or `#`. */
  lemma SlashesHost(rest: string)
    ensures var after := "//" + rest;
            StartsWith(after, "//") && after[2..AuthorityEnd(after, 2)] == rest[..AuthorityEnd(rest, 0)]
  {
    var after := "//" + rest;
    AuthorityShift(rest);
    assert after[..2] == "//";
    assert after[2..AuthorityEnd(after, 2)] == rest[..AuthorityEnd(rest, 0)];
  }

  /** The first `:` after a scheme is the one that ends it. */
  lemma SchemeColon(scheme: string, after: string)
    requires IsScheme(scheme)
    ensures FirstIndex(scheme + [':'] + after, ':') == |scheme|
  {
    var url := scheme + [':'] + after;
    assert ':' !in scheme by {
      forall k | 0 <= k < |scheme| ensures scheme[k] != ':' {
        assert IsSchemeChar(scheme[k]);
      }
    }
    assert url[..|scheme|] == scheme;
    FirstIndexIs(url, ':', |scheme|);
  }

  lemma AuthorityShift(rest: string)
    ensures AuthorityEnd("//" + rest, 2) == AuthorityEnd(rest, 0) + 2
  {
    AuthorityShiftFrom(rest, 0);
  }

  lemma {:induction false} AuthorityShiftFrom(rest: string, p: nat)
    requires p <= |rest|
    ensures AuthorityEnd("//" + rest, p + 2) == AuthorityEnd(rest, p) + 2
    decreases |rest| - p
  {
    var s := "//" + rest;
    if p < |rest| {
      assert s[p + 2] == rest[p];
      if !EndsAuthority(rest[p]) {
        AuthorityShiftFrom(rest, p + 1);
      }
    }
  }

  /** A URL the rewrite gave an `http://` scheme has the start of the original URL as its
      host: `www.b.com/x` has host `www.b.com`. */
  lemma HostOfNormalized(url: string)
    requires NeedsScheme(url)
    ensures Host(Normalize(url)) == url[..AuthorityEnd(url, 0)]
  {
    assert IsScheme("http");
    assert Normalize(url) == "http" + "://" + url;
    HostAfterScheme("http", url);
  }

  /** `d.split('.')[-1]`: the text after the last `.` of the host, or the whole host. */
  function Tld(host: string): (t: string)
    ensures '.' !in host ==> t == host
  {
    LastPiece('.', host)
  }

  /** The top-level domain of `name.tld` is `tld` when `tld` has no dot, whatever dots
      `name` holds. */
  lemma TldAfterLastDot(name: string, tld: string)
    requires '.' !in tld
    ensures Tld(name + "." + tld) == tld
  {
    LastPieceAfter('.', name, tld);
  }

  datatype UrlSummary = UrlSummary(
    urls: Summary<string>,            // urls, urls_flat, url_counts, url_freq, top_urls, overview
    topDomains: seq<(string, nat)>,   // top_domains
    topTlds: seq<(string, nat)>)      // top_tlds

  /** `[URL.findall(x) for x in text_list]` rewritten by `Normalize`: the lists that reach
      the summary and the host rankings. */
  function NormalizedUrls(texts: Texts, findall: FindAll, patterns: Patterns): seq<seq<string>> {
    MapLists(Normalize, Matches(findall, patterns.url, Iterated(texts)))
  }

  /** `extract_urls(text_list)`. The URLs are matched on the original-case texts and
      rewritten in place before they are summarised. Only when there is nothing to
      iterate over does `extract` fall back to matching the lower-cased texts itself. */
  method ExtractUrls(texts: Texts, findall: FindAll, patterns: Patterns) returns (r: Result<UrlSummary, Error>)
    ensures r.Failure? <==> |AsList(texts)| == 0
    ensures r.Failure? ==> r.error == ZeroDivisionError
    ensures r.Success? ==> IsSummaryOf(r.value.urls, r.value.urls.lists, |AsList(texts)|)
    ensures r.Success? && |Iterated(texts)| > 0 ==> r.value.urls.lists == NormalizedUrls(texts, findall, patterns)
    ensures r.Success? && |Iterated(texts)| == 0 ==> r.value.urls.lists == LowerMatches(findall, patterns.url, AsList(texts))
    ensures var domains := MapLists(Host, NormalizedUrls(texts, findall, patterns));
            r.Success? ==> IsRankingOf(r.value.topDomains, Flatten(domains)) &&
                           IsRankingOf(r.value.topTlds, Flatten(MapLists(Tld, domains)))
  {
    var extracted := RewrittenMatches(Iterated(texts), findall, patterns.url);
    var domains := MapLists(Host, extracted);
    var tlds := MapLists(Tld, domains);
    var base := Extract(texts, (t: string) => findall(patterns.url, t), Some(extracted));
    if base.Failure? {
      return Failure(base.error);
    }
    r := Success(UrlSummary(base.value, Top(Flatten(domains)), Top(Flatten(tlds))));
  }

  /** The loops at extract.py:623-628: the matches of every record are copied into a
      list of their own and each list is then rewritten in place. */
  method RewrittenMatches(records: seq<string>, findall: FindAll, pattern: string) returns (extracted: seq<seq<string>>)
    ensures extracted == MapLists(Normalize, Matches(findall, pattern, records))
  {
    var arrays: seq<array<string>> := [];
    for i := 0 to |records|
      invariant |arrays| == i
      invariant forall k :: 0 <= k < i ==> fresh(arrays[k]) && arrays[k][..] == findall(pattern, records[k])
    {
      var matches := findall(pattern, records[i]);
      var a := new string[|matches|](j requires 0 <= j < |matches| => matches[j]);
      arrays := arrays + [a];
    }
    NormalizeLists(arrays);
    extracted := [];
    for i := 0 to |arrays|
      invariant |extracted| == i
      invariant forall k :: 0 <= k < i ==> extracted[k] == arrays[k][..]
    {
      extracted := extracted + [arrays[i][..]];
    }
  }
}
