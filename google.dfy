/** `parse_google_results`: turn the `div.g` blocks of a Google result page into
    results, unwrapping Google's `/url?q=` redirect links. The HTML parsing and the
    query-string parsing are not modelled: the model receives each block's parts as
    the selectors find them and the `q` values of a redirect link as a parameter. */
module Google {
  import opened Results
  import opened Text
  import opened Records

  /** One `div.g` block: the stripped text of its first `h3` (`None` when there is no
      `h3`), the `href` of its first `a` (`None` when there is no `a`, `Some("")` when
      that `a` has no `href`) and the text of its first `div.VwiC3b` (`None` when there
      is none). */
  datatype Block = Block(title: Option<string>, link: Option<string>, snippet: Option<string>)

  /** For a link, the list that `parse_qs(urlparse(link).query)` holds under `q`, or
      `[]` when there is no `q` parameter. */
  type QueryValues = string -> seq<string>

  const RedirectPrefix: string := "/url?"

  /** The target of a link: a `/url?` redirect is replaced by its first `q` value, or
      by `""` when it has none; any other link is its own target. */
  function Target(href: string, q: QueryValues): (t: string)
    ensures !StartsWith(href, RedirectPrefix) ==> t == href
    ensures StartsWith(href, RedirectPrefix) ==> t == (if q(href) == [] then "" else q(href)[0])
  {
    if StartsWith(href, RedirectPrefix) then
      var values := q(href);
      if values == [] then "" else values[0]
    else href
  }

  /** The result a block yields, or `None` when it lacks a title or a link, or when its
      target does not start with `http`. An empty title is kept. */
  function BlockItem(b: Block, q: QueryValues): (r: Option<Item>)
    ensures b.title.None? || b.link.None? ==> r == None
    ensures r.Some? <==> b.title.Some? && b.link.Some? && StartsWith(Target(b.link.value, q), "http")
    ensures r.Some? ==>
      && b.title == Some(r.value.title) && b.link.Some?
      && r.value.url == Target(b.link.value, q) && StartsWith(r.value.url, "http")
      && r.value.snippet == b.snippet.GetOr("")
  {
    if b.title.None? || b.link.None? then None
    else
      var url := Target(b.link.value, q);
      if StartsWith(url, "http") then Some(Item(b.title.value, url, b.snippet.GetOr(""))) else None
  }

  function BlockItems(blocks: seq<Block>, q: QueryValues): seq<Item> {
    KeepSome(blocks, b => BlockItem(b, q))
  }

  /** What `parse_google_results(html, limit)` returns for a page with these blocks. */
  function GoogleResults(blocks: seq<Block>, limit: int, q: QueryValues): seq<Item> {
    Capped(BlockItems(blocks, q), limit)
  }

  lemma ReadBlock(blocks: seq<Block>, i: nat, q: QueryValues)
    requires i < |blocks|
    ensures BlockItems(blocks[..i + 1], q) ==
      if BlockItem(blocks[i], q).Some? then BlockItems(blocks[..i], q) + [BlockItem(blocks[i], q).value]
      else BlockItems(blocks[..i], q)
  {
    assert blocks[..i + 1] == blocks[..i] + [blocks[i]];
    KeepSomeSnoc(blocks[..i], blocks[i], b => BlockItem(b, q));
  }

  /** The body of the loop of `parse_google_results` up to the append: the block's
      result, or `None` where the code `continue`s. */
  method ParseBlock(block: Block, q: QueryValues) returns (r: Option<Item>)
    ensures r == BlockItem(block, q)
  {
    if block.title.None? || block.link.None? {
      return None;
    }
    var href := block.link.value;
    if StartsWith(href, RedirectPrefix) {
      var values := q(href);
      href := if values == [] then "" else values[0];
    }
    if !StartsWith(href, "http") {
      return None;
    }
    var title := block.title.value;
    var snippet := if block.snippet.Some? then block.snippet.value else "";
    return Some(Item(title, href, snippet));
  }

  /** The loop of `parse_google_results`, with the `break` at the limit. */
  method ParseGoogleResults(blocks: seq<Block>, limit: int, q: QueryValues) returns (results: seq<Item>)
    ensures results == GoogleResults(blocks, limit, q)
  {
    results := [];
    for i := 0 to |blocks|
      invariant results == BlockItems(blocks[..i], q)
      invariant |results| < Cap(limit)
    {
      var r := ParseBlock(blocks[i], q);
      ReadBlock(blocks, i, q);
      if r.None? {
        continue;
      }
      results := results + [r.value];
      if |results| >= limit {
        KeepSomePrefix(blocks[..i + 1], blocks, b => BlockItem(b, q));
        return;
      }
    }
    assert blocks[..|blocks|] == blocks;
  }

  /** For `limit >= 1` at most `limit` results; each one comes from a block that has
      a title and a link, carries that title and the block's snippet (or `""`), and
      its url is the link's target, which starts with `http`. */
  lemma GoogleResultsShape(blocks: seq<Block>, limit: int, q: QueryValues)
    ensures 1 <= limit ==> |GoogleResults(blocks, limit, q)| <= limit
    ensures forall r :: r in GoogleResults(blocks, limit, q) ==>
      && StartsWith(r.url, "http")
      && exists j :: 0 <= j < |blocks| && blocks[j].title == Some(r.title) && blocks[j].link.Some?
           && r.url == Target(blocks[j].link.value, q) && r.snippet == blocks[j].snippet.GetOr("")
  {
    var f := b => BlockItem(b, q);
    assert BlockItems(blocks, q) == KeepSome(blocks, f);
    KeepSomeFrom(blocks, f);
    forall r | r in GoogleResults(blocks, limit, q)
      ensures exists j :: 0 <= j < |blocks| && BlockItem(blocks[j], q) == Some(r)
    {
      var j :| 0 <= j < |blocks| && f(blocks[j]) == Some(r);
    }
  }

  /** Every block that yields a result is represented, in block order, until the cap
      is reached: with no `break`, the results are exactly the blocks' results. */
  lemma GoogleResultsUncapped(blocks: seq<Block>, limit: int, q: QueryValues)
    requires |BlockItems(blocks, q)| < Cap(limit)
    ensures GoogleResults(blocks, limit, q) == BlockItems(blocks, q)
  {
  }

  /** A kept result never carries a `/url?` redirect link; a redirect without a `q`
      value drops the block; a block with a title (even an empty one) and a link is
      kept when its target qualifies; and a block without a title or without a link
      is dropped. */
  lemma BlockCases(b: Block, q: QueryValues)
    ensures BlockItem(b, q).Some? ==> !StartsWith(BlockItem(b, q).value.url, RedirectPrefix)
    ensures b.link.Some? && StartsWith(b.link.value, RedirectPrefix) && q(b.link.value) == [] ==> BlockItem(b, q) == None
    ensures b.title.Some? && b.link.Some? && StartsWith(Target(b.link.value, q), "http") ==>
      BlockItem(b, q) == Some(Item(b.title.value, Target(b.link.value, q), b.snippet.GetOr("")))
    ensures b.title == Some("") && b.link.Some? && StartsWith(Target(b.link.value, q), "http") ==>
      BlockItem(b, q) == Some(Item("", Target(b.link.value, q), b.snippet.GetOr("")))
    ensures b.title.None? || b.link.None? ==> BlockItem(b, q) == None
  {
    if BlockItem(b, q).Some? {
      var url := BlockItem(b, q).value.url;
      assert url[0] == 'h';
    }
  }
}
