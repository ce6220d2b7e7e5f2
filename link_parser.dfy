/**
 * link_parser.py: extracting, categorising and labelling the action links
 * of a Discord alert, and parsing the tag line written above an embed.
 *
 * telegram_bot_old.py and app_old.py carry copies of these helpers, and
 * this module is the one model of all of them. `extract_markdown_links` and
 * `categorize_links` are the same code in every copy. The bot's
 * `parse_tag_line` has a garbled currency class (no euro sign, and four
 * stray characters instead), but the bot never reads the price it yields;
 * the bot's `add_emoji_to_link_text` has garbled emoji and is never called.
 */
module LinkParser {
  import opened Wrappers
  import opened Text
  import opened Seqs
  import opened Messages

  /** A markdown link `[text](url)`, both parts stripped. */
  datatype Link = Link(text: string, url: string)

  // -----------------------------------------------------------------------
  // extract_markdown_links: re.finditer(r'\[([^\]]+)\]\(([^\)]+)\)', text)

  /** One match of the markdown-link pattern: its span and its two groups. */
  datatype LinkMatch = LinkMatch(start: nat, stop: nat, caption: string, target: string)

  /**
   * The match of the pattern that starts at `i`, if any. `[^\]]+` runs to
   * the first `]` after the `[` and `[^\)]+` to the first `)` after the
   * `(`; giving back characters never helps, so this is the regex's match.
   */
  function MatchAt(s: string, i: nat): (r: Option<LinkMatch>)
    ensures r.Some? ==> r.value.start == i < r.value.stop <= |s|
  {
    if i >= |s| || s[i] != '[' then None
    else match FindCharFrom(s, {']'}, i + 1)
      case None => None
      case Some(j) =>
        if j == i + 1 || j + 1 >= |s| || s[j + 1] != '(' then None
        else match FindCharFrom(s, {')'}, j + 2)
          case None => None
          case Some(k) =>
            if k == j + 2 then None else Some(LinkMatch(i, k + 1, s[i + 1..j], s[j + 2..k]))
  }

  /**
   * A match is the text `[caption](target)`: a non-empty caption free of
   * `]` and a non-empty target free of `)`, between the four delimiters.
   */
  predicate WellFormedMatch(s: string, m: LinkMatch) {
    var j := m.start + 1 + |m.caption|;
    && m.stop == j + 3 + |m.target| <= |s|
    && s[m.start] == '[' && s[m.start + 1..j] == m.caption && s[j] == ']'
    && s[j + 1] == '(' && s[j + 2..m.stop - 1] == m.target && s[m.stop - 1] == ')'
    && m.caption != [] && ']' !in m.caption
    && m.target != [] && ')' !in m.target
  }

  lemma MatchAtIsWellFormed(s: string, i: nat)
    requires MatchAt(s, i).Some?
    ensures WellFormedMatch(s, MatchAt(s, i).value)
  {
    var j := FindCharFrom(s, {']'}, i + 1).value;
    var k := FindCharFrom(s, {')'}, j + 2).value;
    assert MatchAt(s, i).value == LinkMatch(i, k + 1, s[i + 1..j], s[j + 2..k]);
  }

  /** Every occurrence of `[caption](target)` of the right shape is recognised where it starts. */
  lemma MatchAtRecognises(p: string, caption: string, target: string, q: string)
    requires caption != [] && ']' !in caption
    requires target != [] && ')' !in target
    ensures var s := p + "[" + caption + "](" + target + ")" + q;
      MatchAt(s, |p|) == Some(LinkMatch(|p|, |p| + |caption| + |target| + 4, caption, target))
  {
    LinkShape(p, caption, target, q);
    RecogniseAt(p + "[" + caption + "](" + target + ")" + q, |p|, caption, target);
  }

  lemma RecogniseAt(s: string, i: nat, caption: string, target: string)
    requires caption != [] && ']' !in caption
    requires target != [] && ')' !in target
    requires var j := i + 1 + |caption|;
      var k := j + 2 + |target|;
      && k < |s| && s[i] == '[' && s[j] == ']' && s[j + 1] == '(' && s[k] == ')'
      && s[i + 1..j] == caption && s[j + 2..k] == target
    ensures MatchAt(s, i) == Some(LinkMatch(i, i + |caption| + |target| + 4, caption, target))
  {
    var j := i + 1 + |caption|;
    var k := j + 2 + |target|;
    forall x | i + 1 <= x < j ensures s[x] != ']' {
      assert s[x] == s[i + 1..j][x - i - 1];
    }
    forall x | j + 2 <= x < k ensures s[x] != ')' {
      assert s[x] == s[j + 2..k][x - j - 2];
    }
    FirstCharAt(s, ']', i + 1, j);
    FirstCharAt(s, ')', j + 2, k);
    MatchAtFound(s, i, j, k);
  }

  /** `MatchAt` with both searches already done. */
  lemma MatchAtFound(s: string, i: nat, j: nat, k: nat)
    requires i < j && j + 1 < |s| && s[i] == '[' && s[j + 1] == '('
    requires FindCharFrom(s, {']'}, i + 1) == Some(j) && j != i + 1
    requires FindCharFrom(s, {')'}, j + 2) == Some(k) && k != j + 2
    ensures MatchAt(s, i) == Some(LinkMatch(i, k + 1, s[i + 1..j], s[j + 2..k]))
  {
  }

  /** Where the delimiters and the two groups sit in `p[caption](target)q`. */
  lemma LinkShape(p: string, caption: string, target: string, q: string)
    ensures var s := p + "[" + caption + "](" + target + ")" + q;
      var i, j := |p|, |p| + 1 + |caption|;
      var k := j + 2 + |target|;
      && k < |s| && s[i] == '[' && s[j] == ']' && s[j + 1] == '(' && s[k] == ')'
      && s[i + 1..j] == caption && s[j + 2..k] == target
  {
    var a := p + "[";
    var b := a + caption;
    var c := b + "](";
    var d := c + target;
    var e := d + ")";
    var s := e + q;
    assert s == p + "[" + caption + "](" + target + ")" + q;
    assert s[..|e|] == e && e[..|d|] == d && d[..|c|] == c && c[..|b|] == b && b[..|a|] == a;
    assert s[|p|] == a[|p|] == '[';
    assert b[|a|..] == caption && d[|c|..] == target;
  }

  /** `re.finditer` from position `from`: leftmost match, then resume after it. */
  function Matches(s: string, from: nat): (ms: seq<LinkMatch>)
    decreases |s| - from
  {
    if from >= |s| then []
    else match MatchAt(s, from)
      case Some(m) => [m] + Matches(s, m.stop)
      case None => Matches(s, from + 1)
  }

  /** Every match found is well formed. */
  lemma {:induction false} MatchesWellFormed(s: string, from: nat)
    ensures forall m :: m in Matches(s, from) ==> WellFormedMatch(s, m)
    decreases |s| - from
  {
    if from < |s| {
      match MatchAt(s, from)
      case Some(m) =>
        MatchAtIsWellFormed(s, from);
        MatchesWellFormed(s, m.stop);
      case None =>
        MatchesWellFormed(s, from + 1);
    }
  }

  /** The matches come in text order and do not overlap. */
  predicate InTextOrder(s: string, from: nat, ms: seq<LinkMatch>) {
    && (forall a :: 0 <= a < |ms| ==> from <= ms[a].start)
    && (forall a, b :: 0 <= a < b < |ms| ==> ms[a].stop <= ms[b].start)
  }

  lemma {:induction false} MatchesInTextOrder(s: string, from: nat)
    ensures InTextOrder(s, from, Matches(s, from))
    decreases |s| - from
  {
    if from < |s| {
      match MatchAt(s, from)
      case Some(m) =>
        MatchesInTextOrder(s, m.stop);
        InTextOrderCons(s, from, m, Matches(s, m.stop));
      case None =>
        MatchesInTextOrder(s, from + 1);
    }
  }

  /** A match followed by matches that start after it, all in text order, is in text order. */
  lemma InTextOrderCons(s: string, from: nat, m: LinkMatch, rest: seq<LinkMatch>)
    requires from <= m.start <= m.stop && InTextOrder(s, m.stop, rest)
    ensures InTextOrder(s, from, [m] + rest)
  {
    var ms := [m] + rest;
    forall a | 0 <= a < |ms| ensures from <= ms[a].start {
      if a > 0 {
        assert ms[a] == rest[a - 1];
      }
    }
    forall a, b | 0 <= a < b < |ms| ensures ms[a].stop <= ms[b].start {
      assert ms[b] == rest[b - 1];
      if a > 0 {
        assert ms[a] == rest[a - 1];
      }
    }
  }

  function LinkOf(m: LinkMatch): Link {
    Link(Strip(m.caption), Strip(m.target))
  }

  const HttpPrefix := "http"

  predicate IsHttp(l: Link) {
    StartsWith(l.url, HttpPrefix)
  }

  /** The stripped links of the matches whose URL starts with "http", in match order. */
  function HttpLinks(ms: seq<LinkMatch>): seq<Link> {
    if ms == [] then []
    else
      var l := LinkOf(ms[|ms| - 1]);
      HttpLinks(ms[..|ms| - 1]) + (if IsHttp(l) then [l] else [])
  }

  function LinksOf(ms: seq<LinkMatch>): seq<Link> {
    if ms == [] then [] else LinksOf(ms[..|ms| - 1]) + [LinkOf(ms[|ms| - 1])]
  }

  /** What `extract_markdown_links(text)` returns. */
  function MarkdownLinks(text: string): seq<Link> {
    HttpLinks(Matches(text, 0))
  }

  method ExtractMarkdownLinks(text: string) returns (links: seq<Link>)
    ensures links == MarkdownLinks(text)
    ensures text == "" ==> links == []
  {
    if text == "" {
      return [];
    }
    var ms := Matches(text, 0);
    links := [];
    for i := 0 to |ms|
      invariant links == HttpLinks(ms[..i])
    {
      HttpLinksNext(ms, i);
      var l := Link(Strip(ms[i].caption), Strip(ms[i].target));
      if StartsWith(l.url, HttpPrefix) {
        links := links + [l];
      }
    }
    assert ms[..|ms|] == ms;
  }

  lemma HttpLinksNext(ms: seq<LinkMatch>, i: nat)
    requires i < |ms|
    ensures HttpLinks(ms[..i + 1]) == HttpLinks(ms[..i]) + if IsHttp(LinkOf(ms[i])) then [LinkOf(ms[i])] else []
  {
    assert ms[..i + 1][..i] == ms[..i];
  }

  /** Every extracted link has an http URL, and text and URL carry no surrounding whitespace. */
  lemma {:induction false} HttpLinksAreCleanHttp(ms: seq<LinkMatch>)
    ensures forall l :: l in HttpLinks(ms) ==> IsHttp(l) && Trimmed(l.url) && Trimmed(l.text)
  {
    if ms != [] {
      HttpLinksAreCleanHttp(ms[..|ms| - 1]);
      var l := LinkOf(ms[|ms| - 1]);
      assert Trimmed(l.url) && Trimmed(l.text);
    }
  }

  /** The extracted links keep the order of the matches they come from. */
  lemma {:induction false} HttpLinksKeepOrder(ms: seq<LinkMatch>)
    ensures IsSubsequence(HttpLinks(ms), LinksOf(ms))
  {
    if ms == [] {
      EmptySubsequence(LinksOf(ms));
    } else {
      var init := ms[..|ms| - 1];
      var l := LinkOf(ms[|ms| - 1]);
      HttpLinksKeepOrder(init);
      SubsequenceSnoc(HttpLinks(init), LinksOf(init), l, IsHttp(l));
      assert LinksOf(ms) == LinksOf(init) + [l];
      assert HttpLinks(ms) == if IsHttp(l) then HttpLinks(init) + [l] else HttpLinks(init);
    }
  }

  /** `extract_markdown_links`: empty for empty text, only clean http links, in order of appearance. */
  lemma MarkdownLinksFacts(text: string)
    ensures text == "" ==> MarkdownLinks(text) == []
    ensures forall l :: l in MarkdownLinks(text) ==> StartsWith(l.url, "http")
    ensures IsSubsequence(MarkdownLinks(text), LinksOf(Matches(text, 0)))
  {
    HttpLinksAreCleanHttp(Matches(text, 0));
    HttpLinksKeepOrder(Matches(text, 0));
  }

  // -----------------------------------------------------------------------
  // categorize_links

  datatype Category = Ebay | Fba | Buy | Other

  const EbayKeywords: seq<string> := ["sold", "active", "google", "ebay"]
  const FbaKeywords: seq<string> := ["keepa", "amazon", "selleramp", "fba", "camel"]
  const BuyKeywords: seq<string> := ["buy", "shop", "purchase", "checkout", "cart"]

  /** Some keyword occurs in the lower-cased text or URL of the link. */
  predicate Mentions(link: Link, keywords: seq<string>) {
    exists k :: 0 <= k < |keywords| && (ContainsLower(link.text, keywords[k]) || ContainsLower(link.url, keywords[k]))
  }

  /** eBay beats FBA beats Buy; everything else is Other. */
  function CategoryOf(link: Link): Category {
    if Mentions(link, EbayKeywords) then Ebay
    else if Mentions(link, FbaKeywords) then Fba
    else if Mentions(link, BuyKeywords) then Buy
    else Other
  }

  /** The links of category `c`, in input order. */
  function InCategory(links: seq<Link>, c: Category): seq<Link> {
    if links == [] then []
    else
      var l := links[|links| - 1];
      InCategory(links[..|links| - 1], c) + (if CategoryOf(l) == c then [l] else [])
  }

  datatype Buckets = Buckets(ebay: seq<Link>, fba: seq<Link>, buy: seq<Link>, other: seq<Link>)

  method CategorizeLinks(links: seq<Link>) returns (b: Buckets)
    ensures b.ebay == InCategory(links, Ebay) && b.fba == InCategory(links, Fba)
    ensures b.buy == InCategory(links, Buy) && b.other == InCategory(links, Other)
    ensures |b.ebay| + |b.fba| + |b.buy| + |b.other| == |links|
    ensures multiset(b.ebay) + multiset(b.fba) + multiset(b.buy) + multiset(b.other) == multiset(links)
  {
    b := Buckets([], [], [], []);
    for i := 0 to |links|
      invariant b.ebay == InCategory(links[..i], Ebay) && b.fba == InCategory(links[..i], Fba)
      invariant b.buy == InCategory(links[..i], Buy) && b.other == InCategory(links[..i], Other)
    {
      var link := links[i];
      if Mentions(link, EbayKeywords) {
        b := b.(ebay := b.ebay + [link]);
      } else if Mentions(link, FbaKeywords) {
        b := b.(fba := b.fba + [link]);
      } else if Mentions(link, BuyKeywords) {
        b := b.(buy := b.buy + [link]);
      } else {
        b := b.(other := b.other + [link]);
      }
      assert links[..i + 1][..i] == links[..i];
    }
    assert links[..|links|] == links;
    CategoriesPartition(links);
  }

  /** Every link lands in exactly one bucket: the four buckets together are the input. */
  lemma {:induction false} CategoriesPartition(links: seq<Link>)
    ensures Partitions(InCategory(links, Ebay), InCategory(links, Fba), InCategory(links, Buy), InCategory(links, Other), links)
  {
    if links != [] {
      var init := links[..|links| - 1];
      var l := links[|links| - 1];
      CategoriesPartition(init);
      BucketsStep(links);
      PartitionStep(InCategory(init, Ebay), InCategory(init, Fba), InCategory(init, Buy), InCategory(init, Other),
        InCategory(links, Ebay), InCategory(links, Fba), InCategory(links, Buy), InCategory(links, Other),
        init, l, CategoryOf(l));
      assert init + [l] == links;
    }
  }

  /** Four lists that hold, between them, exactly the elements of `xs`. */
  predicate Partitions(e: seq<Link>, f: seq<Link>, b: seq<Link>, o: seq<Link>, xs: seq<Link>) {
    && multiset(e) + multiset(f) + multiset(b) + multiset(o) == multiset(xs)
    && |e| + |f| + |b| + |o| == |xs|
  }

  /** The last link goes to its own category's bucket and to no other. */
  lemma BucketsStep(links: seq<Link>)
    requires links != []
    ensures var init, l := links[..|links| - 1], links[|links| - 1];
      forall c :: InCategory(links, c) == InCategory(init, c) + (if CategoryOf(l) == c then [l] else [])
  {
  }

  /** Adding one link to one of four buckets that partition a list gives a partition of the longer list. */
  lemma PartitionStep(e: seq<Link>, f: seq<Link>, b: seq<Link>, o: seq<Link>,
                      e': seq<Link>, f': seq<Link>, b': seq<Link>, o': seq<Link>, init: seq<Link>, l: Link, c: Category)
    requires Partitions(e, f, b, o, init)
    requires e' == e + (if c == Ebay then [l] else []) && f' == f + (if c == Fba then [l] else [])
    requires b' == b + (if c == Buy then [l] else []) && o' == o + (if c == Other then [l] else [])
    ensures Partitions(e', f', b', o', init + [l])
  {
    assert multiset(init + [l]) == multiset(init) + multiset{l};
  }

  /** A bucket holds only links of its category. */
  lemma {:induction false} InCategoryOnly(links: seq<Link>, c: Category)
    ensures forall l :: l in InCategory(links, c) ==> l in links && CategoryOf(l) == c
  {
    if links != [] {
      InCategoryOnly(links[..|links| - 1], c);
    }
  }

  // -----------------------------------------------------------------------
  // extract_links_from_embed

  function AsEmbedLink(l: Link): EmbedLink {
    EmbedLink(Some(l.text), Some(l.url), None)
  }

  function AsEmbedLinks(ls: seq<Link>): (r: seq<EmbedLink>)
    ensures |r| == |ls| && forall k :: 0 <= k < |ls| ==> r[k] == AsEmbedLink(ls[k])
  {
    if ls == [] then [] else AsEmbedLinks(ls[..|ls| - 1]) + [AsEmbedLink(ls[|ls| - 1])]
  }

  function UrlOf(l: EmbedLink): string {
    l.url.GetOr("")
  }

  /** Entries of the scraped `links` array that have a non-empty URL. */
  function ArrayLinks(links: seq<EmbedLink>): seq<EmbedLink> {
    if links == [] then []
    else
      var l := links[|links| - 1];
      ArrayLinks(links[..|links| - 1]) + (if UrlOf(l) != "" then [l] else [])
  }

  /** The markdown links of an optional text, none when it is missing or empty. */
  function TextLinks(t: Option<string>): seq<EmbedLink> {
    if Truthy(t) then AsEmbedLinks(MarkdownLinks(t.value)) else []
  }

  /** Markdown links found in the field values, field by field. */
  function FieldLinks(fields: seq<Field>): seq<EmbedLink> {
    if fields == [] then [] else FieldLinks(fields[..|fields| - 1]) + TextLinks(fields[|fields| - 1].value)
  }

  /** Every link the embed offers, in the order the function looks at them. */
  function Candidates(e: Embed): seq<EmbedLink> {
    ArrayLinks(e.links) + TextLinks(e.description) + FieldLinks(e.fields)
  }

  function UrlsOf(ls: seq<EmbedLink>): set<string> {
    set k | 0 <= k < |ls| :: UrlOf(ls[k])
  }

  /** Keeps the first link for each URL, in order. */
  function DedupUrls(ls: seq<EmbedLink>): seq<EmbedLink> {
    if ls == [] then []
    else
      var prev := DedupUrls(ls[..|ls| - 1]);
      var l := ls[|ls| - 1];
      if UrlOf(l) in UrlsOf(prev) then prev else prev + [l]
  }

  method ExtractLinksFromEmbed(embed: Option<Embed>) returns (all: seq<EmbedLink>)
    ensures embed.None? ==> all == []
    ensures embed.Some? ==> all == DedupUrls(Candidates(embed.value))
  {
    if embed.None? {
      return [];
    }
    var e := embed.value;
    var seen;
    all, seen := AddArrayLinks(e.links);
    ghost var done := ArrayLinks(e.links);
    if e.description.Some? && e.description.value != "" {
      var md := ExtractMarkdownLinks(e.description.value);
      all, seen := AddMarkdownLinks(all, seen, md, done);
    } else {
      assert done + TextLinks(e.description) == done;
    }
    done := done + TextLinks(e.description);
    all, seen := AddFieldLinks(all, seen, e.fields, done);
    assert done + FieldLinks(e.fields) == Candidates(e);
  }

  /** The loop over the scraped `links` array: entries without a URL or with a URL seen before are skipped. */
  method AddArrayLinks(links: seq<EmbedLink>) returns (all: seq<EmbedLink>, seen: set<string>)
    ensures all == DedupUrls(ArrayLinks(links)) && seen == UrlsOf(all)
  {
    all := [];
    seen := {};
    ghost var done: seq<EmbedLink> := [];
    for i := 0 to |links|
      invariant done == ArrayLinks(links[..i])
      invariant all == DedupUrls(done) && seen == UrlsOf(all)
    {
      var link := links[i];
      var url := link.url.GetOr("");
      assert links[..i + 1][..i] == links[..i];
      if url != "" {
        DedupStep(done, link);
        if url !in seen {
          all := all + [link];
          seen := seen + {url};
        }
        done := done + [link];
      }
    }
    assert links[..|links|] == links;
  }

  /** The loop over the fields: the markdown links of each non-empty value, field by field. */
  method AddFieldLinks(all: seq<EmbedLink>, seen: set<string>, fields: seq<Field>, ghost done: seq<EmbedLink>)
    returns (all': seq<EmbedLink>, seen': set<string>)
    requires all == DedupUrls(done) && seen == UrlsOf(all)
    ensures all' == DedupUrls(done + FieldLinks(fields)) && seen' == UrlsOf(all')
  {
    all', seen' := all, seen;
    assert done + FieldLinks(fields[..0]) == done;
    for i := 0 to |fields|
      invariant all' == DedupUrls(done + FieldLinks(fields[..i])) && seen' == UrlsOf(all')
    {
      var f := fields[i];
      ghost var before := done + FieldLinks(fields[..i]);
      FieldLinksStep(done, fields, i);
      if f.value.Some? && f.value.value != "" {
        var md := ExtractMarkdownLinks(f.value.value);
        all', seen' := AddMarkdownLinks(all', seen', md, before);
      } else {
        assert before + TextLinks(f.value) == before;
      }
    }
    assert fields[..|fields|] == fields;
  }

  lemma FieldLinksStep(done: seq<EmbedLink>, fields: seq<Field>, i: nat)
    requires i < |fields|
    ensures done + FieldLinks(fields[..i + 1]) == done + FieldLinks(fields[..i]) + TextLinks(fields[i].value)
  {
    assert fields[..i + 1][..i] == fields[..i];
    assert FieldLinks(fields[..i + 1]) == FieldLinks(fields[..i]) + TextLinks(fields[i].value);
  }

  /** The inner loop over the markdown links of one text: each new URL is appended and remembered. */
  method AddMarkdownLinks(all: seq<EmbedLink>, seen: set<string>, md: seq<Link>, ghost done: seq<EmbedLink>)
    returns (all': seq<EmbedLink>, seen': set<string>)
    requires all == DedupUrls(done) && seen == UrlsOf(all)
    ensures all' == DedupUrls(done + AsEmbedLinks(md)) && seen' == UrlsOf(all')
  {
    all', seen' := all, seen;
    assert done + AsEmbedLinks(md[..0]) == done;
    for k := 0 to |md|
      invariant all' == DedupUrls(done + AsEmbedLinks(md[..k])) && seen' == UrlsOf(all')
    {
      var link := AsEmbedLink(md[k]);
      EmbedLinksNext(done, md, k);
      DedupStep(done + AsEmbedLinks(md[..k]), link);
      if md[k].url !in seen' {
        all' := all' + [link];
        seen' := seen' + {md[k].url};
      }
    }
    assert md[..|md|] == md;
  }

  lemma EmbedLinksNext(done: seq<EmbedLink>, md: seq<Link>, k: nat)
    requires k < |md|
    ensures done + AsEmbedLinks(md[..k + 1]) == (done + AsEmbedLinks(md[..k])) + [AsEmbedLink(md[k])]
  {
    assert AsEmbedLinks(md[..k + 1]) == AsEmbedLinks(md[..k]) + [AsEmbedLink(md[k])];
  }

  lemma DedupStep(done: seq<EmbedLink>, l: EmbedLink)
    ensures DedupUrls(done + [l]) ==
      if UrlOf(l) in UrlsOf(DedupUrls(done)) then DedupUrls(done) else DedupUrls(done) + [l]
    ensures UrlsOf(DedupUrls(done) + [l]) == UrlsOf(DedupUrls(done)) + {UrlOf(l)}
  {
    assert (done + [l])[..|done|] == done;
    var p := DedupUrls(done);
    assert forall k :: 0 <= k < |p| ==> (p + [l])[k] == p[k];
    assert (p + [l])[|p|] == l;
  }

  /** No two links returned share a URL. */
  predicate DistinctUrls(r: seq<EmbedLink>) {
    forall a, b :: 0 <= a < b < |r| ==> UrlOf(r[a]) != UrlOf(r[b])
  }

  lemma {:induction false} DedupUrlsDistinct(ls: seq<EmbedLink>)
    ensures DistinctUrls(DedupUrls(ls))
  {
    if ls != [] {
      var prev := DedupUrls(ls[..|ls| - 1]);
      DedupUrlsDistinct(ls[..|ls| - 1]);
      var l := ls[|ls| - 1];
      if UrlOf(l) !in UrlsOf(prev) {
        var r := prev + [l];
        assert DedupUrls(ls) == r;
        forall a, b | 0 <= a < b < |r| ensures UrlOf(r[a]) != UrlOf(r[b]) {
          assert r[a] == prev[a];
          if b == |prev| {
            assert r[b] == l;
            assert UrlOf(prev[a]) in UrlsOf(prev);
            assert UrlOf(r[a]) != UrlOf(r[b]);
          } else {
            assert r[b] == prev[b];
          }
        }
      }
    }
  }

  /** The links returned are some of the candidates, in candidate order. */
  lemma {:induction false} DedupUrlsKeepsOrder(ls: seq<EmbedLink>)
    ensures IsSubsequence(DedupUrls(ls), ls)
  {
    if ls == [] {
      EmptySubsequence(ls);
    } else {
      var init := ls[..|ls| - 1];
      var l := ls[|ls| - 1];
      DedupUrlsKeepsOrder(init);
      SubsequenceSnoc(DedupUrls(init), init, l, UrlOf(l) !in UrlsOf(DedupUrls(init)));
      assert init + [l] == ls;
    }
  }

  /** Every candidate URL is represented in the result. */
  lemma {:induction false} DedupUrlsCovers(ls: seq<EmbedLink>)
    ensures UrlsOf(DedupUrls(ls)) == UrlsOf(ls)
  {
    if ls != [] {
      var init := ls[..|ls| - 1];
      var l := ls[|ls| - 1];
      DedupUrlsCovers(init);
      DedupStep(init, l);
      assert init + [l] == ls;
      assert UrlsOf(ls) == UrlsOf(init) + {UrlOf(l)} by {
        assert forall k :: 0 <= k < |init| ==> ls[k] == init[k];
        forall u | u in UrlsOf(init) ensures u in UrlsOf(ls) {
          var k :| 0 <= k < |init| && UrlOf(init[k]) == u;
          assert UrlOf(ls[k]) == u;
        }
        assert UrlOf(ls[|ls| - 1]) == UrlOf(l);
      }
    }
  }

  /** No candidate has an empty URL, so no empty URL is ever returned. */
  lemma {:induction false} ArrayLinksHaveUrls(links: seq<EmbedLink>)
    ensures forall l :: l in ArrayLinks(links) ==> UrlOf(l) != "" && l in links
  {
    if links != [] {
      ArrayLinksHaveUrls(links[..|links| - 1]);
    }
  }

  // -----------------------------------------------------------------------
  // parse_tag_line

  datatype TagInfo = TagInfo(
    ping: Option<string>, region: Option<string>, productCode: Option<string>,
    brand: Option<string>, action: Option<string>, price: Option<string>, raw: string)

  function FreshTag(tag: string): TagInfo {
    TagInfo(None, None, None, None, None, None, tag)
  }

  datatype Segment = PingSegment | RegionSegment | ActionSegment | PlainSegment

  const PingMark := "@"
  const RegionOpen := "["
  const RegionClose := "]"
  const Restocked := "restocked"
  const InStock := "in stock"
  const Available := "available"

  /** Whether a segment announces stock: one of the action words, in any case. */
  predicate IsAction(part: string) {
    ContainsLower(part, Restocked) || ContainsLower(part, InStock) || ContainsLower(part, Available)
  }

  /** How a stripped segment of the tag line is classified, first rule that applies. */
  function SegmentKind(part: string): Segment {
    if StartsWith(part, PingMark) then PingSegment
    else if StartsWith(part, RegionOpen) && EndsWith(part, RegionClose) then RegionSegment
    else if IsAction(part) then ActionSegment
    else PlainSegment
  }

  const CurrencySigns: set<char> := {'£', '$', '€'}

  /** End of a match of `[£$€]\s*[\d,]+\.?\d*` starting at `i`. */
  function PriceEnd(s: string, i: nat): (r: Option<nat>)
    ensures r.Some? ==> i < r.value <= |s|
  {
    if i >= |s| || s[i] !in CurrencySigns then None
    else
      var j := SkipSpaces(s, i + 1);
      var k := SkipDigitsOr(s, j, {','});
      if k == j then None
      else
        var l := if k < |s| && s[k] == '.' then k + 1 else k;
        Some(SkipDigitsOr(s, l, {}))
  }

  /** `re.search` of the price pattern from `from`: the leftmost match. */
  function FindPrice(s: string, from: nat): (r: Option<string>)
    decreases |s| - from
    ensures r.Some? ==> r.value != [] && r.value[0] in CurrencySigns
  {
    if from >= |s| then None
    else match PriceEnd(s, from)
      case Some(e) => Some(s[from..e])
      case None => FindPrice(s, from + 1)
  }

  function ApplySegment(info: TagInfo, part: string): TagInfo {
    match SegmentKind(part)
    case PingSegment => info.(ping := Some(part))
    case RegionSegment => info.(region := Some(StripChars(part, {'[', ']'})))
    case ActionSegment =>
      var p := FindPrice(part, 0);
      info.(action := Some(part), price := if p.Some? then p else info.price)
    case PlainSegment =>
      if info.productCode.None? then info.(productCode := Some(part))
      else if info.brand.None? then info.(brand := Some(part))
      else info
  }

  function ApplySegments(info: TagInfo, parts: seq<string>): TagInfo {
    if parts == [] then info
    else ApplySegment(ApplySegments(info, parts[..|parts| - 1]), parts[|parts| - 1])
  }

  /** `[p.strip() for p in tag.split('|')]`. */
  function Segments(tag: string): (r: seq<string>)
    ensures |r| >= 1
  {
    var raw := Split(tag, '|');
    seq(|raw|, k requires 0 <= k < |raw| => Strip(raw[k]))
  }

  /** What `parse_tag_line(tag)` returns; `None` is the empty dictionary. */
  function TagLine(tag: string): Option<TagInfo> {
    if tag == "" then None else Some(ApplySegments(FreshTag(tag), Segments(tag)))
  }

  method ParseTagLine(tag: string) returns (r: Option<TagInfo>)
    ensures r == TagLine(tag)
  {
    if tag == "" {
      return None;
    }
    var parts := Segments(tag);
    var info := FreshTag(tag);
    for i := 0 to |parts|
      invariant info == ApplySegments(FreshTag(tag), parts[..i])
    {
      var part := parts[i];
      ApplySegmentsNext(FreshTag(tag), parts, i);
      if StartsWith(part, PingMark) {
        info := info.(ping := Some(part));
      } else if StartsWith(part, RegionOpen) && EndsWith(part, RegionClose) {
        info := info.(region := Some(StripChars(part, {'[', ']'})));
      } else if IsAction(part) {
        info := info.(action := Some(part));
        var priceMatch := FindPrice(part, 0);
        if priceMatch.Some? {
          info := info.(price := priceMatch);
        }
      } else {
        if info.productCode.None? {
          info := info.(productCode := Some(part));
        } else if info.brand.None? {
          info := info.(brand := Some(part));
        }
      }
    }
    assert parts[..|parts|] == parts;
    r := Some(info);
  }

  lemma ApplySegmentsNext(info: TagInfo, parts: seq<string>, i: nat)
    requires i < |parts|
    ensures ApplySegments(info, parts[..i + 1]) == ApplySegment(ApplySegments(info, parts[..i]), parts[i])
  {
    assert parts[..i + 1][..i] == parts[..i];
  }

  /** What a segment records: a region without its brackets, any other segment as it stands. */
  function Recorded(p: string): string {
    if SegmentKind(p) == RegionSegment then StripChars(p, {'[', ']'}) else p
  }

  /** What the segments of one kind record, in order. */
  function OfKind(parts: seq<string>, kind: Segment): seq<string> {
    if parts == [] then []
    else
      var p := parts[|parts| - 1];
      OfKind(parts[..|parts| - 1], kind) + (if SegmentKind(p) == kind then [Recorded(p)] else [])
  }

  /** The prices found in action segments, in order. */
  function ActionPrices(parts: seq<string>): seq<string> {
    if parts == [] then []
    else
      var p := parts[|parts| - 1];
      var price := FindPrice(p, 0);
      ActionPrices(parts[..|parts| - 1])
        + (if SegmentKind(p) == ActionSegment && price.Some? then [price.value] else [])
  }

  function Nth(s: seq<string>, n: nat): Option<string> {
    if n < |s| then Some(s[n]) else None
  }

  function Last(s: seq<string>): Option<string> {
    if s == [] then None else Some(s[|s| - 1])
  }

  /** The first two plain segments are product code and brand; later ones are ignored. */
  lemma {:induction false} TagPlainSegments(tag: string, parts: seq<string>)
    ensures ApplySegments(FreshTag(tag), parts).raw == tag
    ensures ApplySegments(FreshTag(tag), parts).productCode == Nth(OfKind(parts, PlainSegment), 0)
    ensures ApplySegments(FreshTag(tag), parts).brand == Nth(OfKind(parts, PlainSegment), 1)
  {
    if parts != [] {
      var init := parts[..|parts| - 1];
      var p := parts[|parts| - 1];
      TagPlainSegments(tag, init);
      var plain := OfKind(init, PlainSegment);
      if SegmentKind(p) == PlainSegment {
        assert OfKind(parts, PlainSegment) == plain + [p];
        assert Nth(plain + [p], 0) == if |plain| == 0 then Some(p) else Nth(plain, 0);
        assert Nth(plain + [p], 1) == if |plain| == 1 then Some(p) else Nth(plain, 1);
      } else {
        assert OfKind(parts, PlainSegment) == plain;
      }
    }
  }

  /** Ping, region and action are those of the LAST segment of their kind; the price is the last one found in an action segment. */
  lemma TagLastSegments(tag: string, parts: seq<string>)
    ensures ApplySegments(FreshTag(tag), parts).ping == Last(OfKind(parts, PingSegment))
    ensures ApplySegments(FreshTag(tag), parts).region == Last(OfKind(parts, RegionSegment))
    ensures ApplySegments(FreshTag(tag), parts).action == Last(OfKind(parts, ActionSegment))
    ensures ApplySegments(FreshTag(tag), parts).price == Last(ActionPrices(parts))
  {
    TagLastPing(tag, parts);
    TagLastRegion(tag, parts);
    TagLastAction(tag, parts);
    TagLastPrice(tag, parts);
  }

  /** The last entry after appending a segment: that segment's record when it is of the kind. */
  lemma LastOfKindStep(parts: seq<string>, kind: Segment)
    requires parts != []
    ensures Last(OfKind(parts, kind)) ==
      if SegmentKind(parts[|parts| - 1]) == kind then Some(Recorded(parts[|parts| - 1]))
      else Last(OfKind(parts[..|parts| - 1], kind))
  {
    var prev := OfKind(parts[..|parts| - 1], kind);
    var p := parts[|parts| - 1];
    if SegmentKind(p) == kind {
      assert OfKind(parts, kind) == prev + [Recorded(p)];
    } else {
      assert OfKind(parts, kind) == prev;
    }
  }

  lemma {:induction false} TagLastPing(tag: string, parts: seq<string>)
    ensures ApplySegments(FreshTag(tag), parts).ping == Last(OfKind(parts, PingSegment))
  {
    if parts != [] {
      TagLastPing(tag, parts[..|parts| - 1]);
      LastOfKindStep(parts, PingSegment);
    }
  }

  lemma {:induction false} TagLastRegion(tag: string, parts: seq<string>)
    ensures ApplySegments(FreshTag(tag), parts).region == Last(OfKind(parts, RegionSegment))
  {
    if parts != [] {
      TagLastRegion(tag, parts[..|parts| - 1]);
      LastOfKindStep(parts, RegionSegment);
    }
  }

  lemma {:induction false} TagLastAction(tag: string, parts: seq<string>)
    ensures ApplySegments(FreshTag(tag), parts).action == Last(OfKind(parts, ActionSegment))
  {
    if parts != [] {
      TagLastAction(tag, parts[..|parts| - 1]);
      LastOfKindStep(parts, ActionSegment);
    }
  }

  lemma {:induction false} TagLastPrice(tag: string, parts: seq<string>)
    ensures ApplySegments(FreshTag(tag), parts).price == Last(ActionPrices(parts))
  {
    if parts != [] {
      var p := parts[|parts| - 1];
      TagLastPrice(tag, parts[..|parts| - 1]);
      var price := FindPrice(p, 0);
      assert ActionPrices(parts) == ActionPrices(parts[..|parts| - 1])
        + (if SegmentKind(p) == ActionSegment && price.Some? then [price.value] else []);
    }
  }

  /** `parse_tag_line`: `{}` exactly for an empty tag, otherwise every field as the two lemmas above say. */
  lemma TagLineFacts(tag: string)
    ensures tag == "" <==> TagLine(tag).None?
    ensures tag != "" ==>
      && TagLine(tag).value.raw == tag
      && TagLine(tag).value.productCode == Nth(OfKind(Segments(tag), PlainSegment), 0)
      && TagLine(tag).value.brand == Nth(OfKind(Segments(tag), PlainSegment), 1)
      && TagLine(tag).value.ping == Last(OfKind(Segments(tag), PingSegment))
      && TagLine(tag).value.region == Last(OfKind(Segments(tag), RegionSegment))
      && TagLine(tag).value.action == Last(OfKind(Segments(tag), ActionSegment))
      && TagLine(tag).value.price == Last(ActionPrices(Segments(tag)))
  {
    if tag != "" {
      TagPlainSegments(tag, Segments(tag));
      TagLastSegments(tag, Segments(tag));
    }
  }

  // -----------------------------------------------------------------------
  // clean_link_text

  /** Python's `s[:n]` for any integer `n` (negative counts from the end). */
  function PySliceTo(s: string, n: int): (r: string)
    ensures n >= 0 ==> r == Take(s, n)
  {
    if n >= 0 then Take(s, n)
    else if |s| + n <= 0 then []
    else s[..|s| + n]
  }

  /** The text with "Click Here!" and then "View" removed, stripped after each. */
  function WithoutFiller(text: string): string {
    Strip(ReplaceAll(Strip(ReplaceAll(text, "Click Here!", "")), "View", ""))
  }

  /** Cuts over-long text to `maxLength - 3` characters plus "...", Python slice semantics; nothing left gives "Link". */
  function Shorten(t: string, maxLength: int): (r: string)
    ensures r != ""
    ensures t != "" && |t| <= maxLength ==> r == t
    ensures |t| > maxLength >= 3 ==> r == t[..maxLength - 3] + "..." && |r| == maxLength
    ensures maxLength >= 4 ==> |r| <= maxLength
    ensures t == "" && maxLength >= 0 ==> r == "Link"
  {
    if |t| > maxLength then
      var head := PySliceTo(t, maxLength - 3);
      assert maxLength >= 3 ==> head == t[..maxLength - 3] && |head| == maxLength - 3;
      head + "..."
    else if t == "" then "Link"
    else t
  }

  function CleanLinkText(text: string, maxLength: int := 20): string {
    Shorten(WithoutFiller(text), maxLength)
  }

  // -----------------------------------------------------------------------
  // add_emoji_to_link_text

  /** `LINK_EMOJIS`, in the dictionary's order. */
  const LinkEmojis: seq<(string, string)> := [
    ("sold", "💰"), ("active", "⚡"), ("google", "🔍"), ("ebay", "🛒"),
    ("keepa", "📈"), ("amazon", "🔎"), ("selleramp", "💎"), ("camel", "🐫"),
    ("buy", "🛒"), ("shop", "🏪"), ("cart", "🛒"), ("checkout", "✅")]

  const DefaultLinkEmoji: string := "🔗"

  /** The emoji of the first keyword at or after `k` found in `lower`. */
  function EmojiFrom(lower: string, k: nat): string
    decreases |LinkEmojis| - k
  {
    if k >= |LinkEmojis| then DefaultLinkEmoji
    else if Contains(lower, LinkEmojis[k].0) then LinkEmojis[k].1
    else EmojiFrom(lower, k + 1)
  }

  function AddEmojiToLinkText(text: string): string {
    EmojiFrom(Lower(text), 0) + " " + text
  }

  lemma {:induction false} EmojiFromFirstMatch(lower: string, k: nat, first: nat)
    requires k <= first < |LinkEmojis| && Contains(lower, LinkEmojis[first].0)
    requires forall j :: k <= j < first ==> !Contains(lower, LinkEmojis[j].0)
    ensures EmojiFrom(lower, k) == LinkEmojis[first].1
    decreases first - k
  {
    if k < first {
      EmojiFromFirstMatch(lower, k + 1, first);
    }
  }

  lemma {:induction false} EmojiFromNoMatch(lower: string, k: nat)
    requires forall j :: k <= j < |LinkEmojis| ==> !Contains(lower, LinkEmojis[j].0)
    ensures EmojiFrom(lower, k) == DefaultLinkEmoji
    decreases |LinkEmojis| - k
  {
    if k < |LinkEmojis| {
      EmojiFromNoMatch(lower, k + 1);
    }
  }

  /** Key `k` of `LINK_EMOJIS` is the first one that occurs in `lower`. */
  predicate FirstKeywordAt(lower: string, k: nat) {
    && k < |LinkEmojis| && Contains(lower, LinkEmojis[k].0)
    && forall j :: 0 <= j < k ==> !Contains(lower, LinkEmojis[j].0)
  }

  /** The prefix is the emoji of the first key found in the lower-cased text, and the text follows unchanged. */
  lemma AddEmojiFirstKeyword(text: string, k: nat)
    requires FirstKeywordAt(Lower(text), k)
    ensures AddEmojiToLinkText(text) == LinkEmojis[k].1 + " " + text
  {
    EmojiFromFirstMatch(Lower(text), 0, k);
  }

  /** Without any key in the text, the prefix is the link emoji. */
  lemma AddEmojiNoKeyword(text: string)
    requires forall j :: 0 <= j < |LinkEmojis| ==> !Contains(Lower(text), LinkEmojis[j].0)
    ensures AddEmojiToLinkText(text) == DefaultLinkEmoji + " " + text
  {
    EmojiFromNoMatch(Lower(text), 0);
  }
}
