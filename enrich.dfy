/** `extract_page_summary` and `enrich_items`: fetch each result's own page, reduce its
    text to a short single-spaced excerpt and append that excerpt to the snippet. The
    fetch and the HTML parsing are not modelled; the model receives, per url, the
    page's text or `None` when the request failed. */
module Enrichment {
  import opened Results
  import opened Text
  import opened Records

  /** For a url, the visible text of the fetched page with `<script>`, `<style>` and
      `<noscript>` removed, as `soup.get_text(" ", strip=True)` returns it; `None` when
      `fetch(url)` raised a request exception. */
  type PageText = string -> Option<string>

  /** The `max_chars` that `enrich_items` uses: `extract_page_summary`'s default. */
  const ExcerptChars: int := 200

  /** `extract_page_summary(url, max_chars)` once the page has been fetched. */
  function PageSummary(page: Option<string>, maxChars: int): (excerpt: string)
    ensures page.None? ==> excerpt == ""
    ensures page.Some? ==> excerpt <= Collapse(page.value)
    ensures page.Some? && 0 <= maxChars ==>
      |excerpt| == if maxChars < |Collapse(page.value)| then maxChars else |Collapse(page.value)|
  {
    match page
    case None => ""
    case Some(pageText) =>
      var text := Collapse(pageText);
      if text == "" then "" else SlicePrefix(text, maxChars)
  }

  /** A text has visible characters exactly when it is not all whitespace. */
  lemma {:induction false} VisibleEmpty(s: string)
    ensures Visible(s) == [] <==> AllSpace(s)
    decreases |s|
  {
    if s != [] {
      VisibleEmpty(s[1..]);
      assert AllSpace(s) <==> IsSpace(s[0]) && AllSpace(s[1..]);
    }
  }

  /** The excerpt: empty when the fetch failed; otherwise at most `max_chars` long,
      single-spaced and without a leading space, made only of the page's words, and
      non-empty exactly when the page has visible text (for `max_chars >= 1`). */
  lemma ExcerptShape(page: Option<string>, maxChars: int)
    ensures page.None? ==> PageSummary(page, maxChars) == ""
    ensures 0 <= maxChars ==> |PageSummary(page, maxChars)| <= maxChars
    ensures SingleSpaced(PageSummary(page, maxChars))
    ensures page.Some? ==> PageSummary(page, maxChars) <= Collapse(page.value)
    ensures page.Some? && 0 <= maxChars ==>
      |PageSummary(page, maxChars)| == if maxChars < |Collapse(page.value)| then maxChars else |Collapse(page.value)|
    ensures 1 <= maxChars ==> (PageSummary(page, maxChars) != "" <==> page.Some? && Visible(page.value) != "")
  {
    if page.Some? {
      var text := Collapse(page.value);
      CollapseShape(page.value);
      CollapseKeepsText(page.value);
      PrefixSingleSpaced(text, PageSummary(page, maxChars));
      VisibleEmpty(text);
      if text != [] {
        assert !IsSpace(text[0]);
      }
    }
  }

  /** One iteration of `enrich_items`: the item with its snippet extended by the
      excerpt of its page, or the item unchanged when the excerpt is empty. */
  function EnrichOne(item: Item, page: PageText): (r: Item)
    ensures r.title == item.title && r.url == item.url
    ensures PageSummary(page(item.url), ExcerptChars) == "" ==> r == item
  {
    var summary := PageSummary(page(item.url), ExcerptChars);
    if summary != "" then Extended(item, summary) else item
  }

  /** `item["snippet"] = f"{snippet} {page_summary}".strip()`. */
  function Extended(item: Item, summary: string): Item {
    item.(snippet := Strip(item.snippet + " " + summary))
  }

  /** Appending an excerpt that starts with a visible character keeps the title and
      the url, appends the excerpt's visible text to the snippet's, and leaves a
      non-empty snippet. */
  lemma ExtendedKeeps(item: Item, summary: string)
    requires summary != "" && !IsSpace(summary[0])
    ensures Extended(item, summary).title == item.title && Extended(item, summary).url == item.url
    ensures Visible(Extended(item, summary).snippet) == Visible(item.snippet) + Visible(summary)
    ensures Extended(item, summary).snippet != ""
  {
    JoinedVisible(item.snippet, summary);
    VisibleHead(summary);
    assert Visible("") == [];
  }

  /** `f"{a} {b}".strip()` keeps the visible text of both parts, in order. */
  lemma JoinedVisible(a: string, b: string)
    ensures Visible(Strip(a + " " + b)) == Visible(a) + Visible(b)
  {
    assert Visible(" ") == [] by {
      assert " "[1..] == [];
    }
    VisibleConcat(a, " ");
    VisibleConcat(a + " ", b);
    VisibleStrip(a + " " + b);
  }

  lemma VisibleHead(s: string)
    requires s != "" && !IsSpace(s[0])
    ensures Visible(s) != []
  {
    assert Visible(s) == [s[0]] + Visible(s[1..]);
  }

  /** What `enrich_items(items)` leaves in the list, item by item. */
  function Enriched(items: seq<Item>, page: PageText): (r: seq<Item>)
    ensures |r| == |items|
  {
    seq(|items|, i requires 0 <= i < |items| => EnrichOne(items[i], page))
  }

  /** Enrichment keeps the title and the url; it appends the visible text of the
      excerpt to that of the snippet and loses none of the snippet's; it leaves the
      item alone when there is no excerpt; and a snippet never becomes empty. */
  lemma EnrichOneKeeps(item: Item, page: PageText)
    ensures EnrichOne(item, page).title == item.title
    ensures EnrichOne(item, page).url == item.url
    ensures var summary := PageSummary(page(item.url), ExcerptChars);
      && (summary == "" ==> EnrichOne(item, page) == item)
      && (summary != "" ==> Visible(EnrichOne(item, page).snippet) == Visible(item.snippet) + Visible(summary))
      && (summary != "" ==> EnrichOne(item, page).snippet != "")
    ensures item.snippet != "" ==> EnrichOne(item, page).snippet != ""
  {
    var summary := PageSummary(page(item.url), ExcerptChars);
    if summary != "" {
      ExcerptShape(page(item.url), ExcerptChars);
      ExtendedKeeps(item, summary);
    }
  }

  /** `enrich_items` keeps the number, the order, the titles and the urls of the
      items, and never turns a non-empty snippet into an empty one. */
  lemma EnrichedKeeps(items: seq<Item>, page: PageText)
    ensures |Enriched(items, page)| == |items|
    ensures forall i :: 0 <= i < |items| ==>
      && Enriched(items, page)[i].title == items[i].title
      && Enriched(items, page)[i].url == items[i].url
      && (items[i].snippet != "" ==> Enriched(items, page)[i].snippet != "")
  {
    forall i | 0 <= i < |items| {
      EnrichOneKeeps(items[i], page);
    }
  }

  /** `enrich_items(items)`: the loop that overwrites `item["snippet"]` in place. */
  method EnrichItems(items: array<Item>, page: PageText)
    modifies items
    ensures items[..] == Enriched(old(items[..]), page)
  {
    ghost var original := items[..];
    for i := 0 to items.Length
      invariant forall k :: 0 <= k < i ==> items[k] == EnrichOne(original[k], page)
      invariant forall k :: i <= k < items.Length ==> items[k] == original[k]
    {
      var item := items[i];
      assert item == original[i];
      var summary := PageSummary(page(item.url), ExcerptChars);
      if summary != "" {
        items[i] := Extended(item, summary);
      }
      assert items[i] == EnrichOne(original[i], page);
    }
    assert forall k :: 0 <= k < items.Length ==> items[..][k] == Enriched(original, page)[k];
  }
}
