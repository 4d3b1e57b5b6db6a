/** `search_mlb`: keep the links of the MLB search page that point into mlb.com, once
    each, up to the limit. The page fetch and the selection of `<a>` elements are not
    modelled; the model receives the anchors in document order. */
module Mlb {
  import opened Results
  import opened Text
  import opened Records
  import opened Dedup

  /** One `<a>` element: its `href` attribute (`""` when it has none) and its text as
      `get_text(strip=True)` returns it. */
  datatype Anchor = Anchor(href: string, text: string)

  const Origin: string := "https://www.mlb.com"

  /** A href that starts with `/` (including a protocol-relative `//host`) is glued to
      the origin; any other href is kept as it is. */
  function Resolve(href: string): string {
    if StartsWith(href, "/") then Origin + href else href
  }

  /** The result an anchor yields before deduplication: none without a href or a
      text, none when the resolved href does not start with the origin. The snippet is
      always empty for this source. */
  function Candidate(a: Anchor): (r: Option<Item>)
    ensures r.Some? ==> r.value == Item(a.text, Resolve(a.href), "") && a.text != "" && StartsWith(r.value.url, Origin)
    ensures a.text != "" && StartsWith(a.href, "/") ==> r.Some?
  {
    if a.href == "" || a.text == "" then None
    else
      var url := Resolve(a.href);
      if StartsWith(url, Origin) then Some(Item(a.text, url, "")) else None
  }

  /** What `search_mlb(query, limit)` returns for a page with these anchors. */
  function MlbResults(anchors: seq<Anchor>, limit: int): seq<Item> {
    Capped(FirstOccurrences(KeepSome(anchors, Candidate), ItemUrl), limit)
  }

  /** Reading anchor `i`: its candidate, if any, is kept exactly when its url has not
      been seen, and the seen-set grows by that url. */
  lemma ReadAnchor(anchors: seq<Anchor>, i: nat, results: seq<Item>)
    requires i < |anchors|
    requires results == FirstOccurrences(KeepSome(anchors[..i], Candidate), ItemUrl)
    ensures Candidate(anchors[i]).None? ==>
      FirstOccurrences(KeepSome(anchors[..i + 1], Candidate), ItemUrl) == results
    ensures Candidate(anchors[i]).Some? && Candidate(anchors[i]).value.url in Keys(results, ItemUrl) ==>
      FirstOccurrences(KeepSome(anchors[..i + 1], Candidate), ItemUrl) == results
    ensures Candidate(anchors[i]).Some? && Candidate(anchors[i]).value.url !in Keys(results, ItemUrl) ==>
      && FirstOccurrences(KeepSome(anchors[..i + 1], Candidate), ItemUrl) == results + [Candidate(anchors[i]).value]
      && Keys(results + [Candidate(anchors[i]).value], ItemUrl) == Keys(results, ItemUrl) + {Candidate(anchors[i]).value.url}
  {
    var read := KeepSome(anchors[..i], Candidate);
    assert anchors[..i + 1] == anchors[..i] + [anchors[i]];
    KeepSomeSnoc(anchors[..i], anchors[i], Candidate);
    match Candidate(anchors[i])
    case None =>
    case Some(x) =>
      FirstOccurrencesSnoc(read, x, ItemUrl);
      KeysAppend(results, x, ItemUrl);
  }

  /** The `break`: once the results taken from the anchors read so far reach the cap,
      the rest of the page changes nothing. */
  lemma StopAt(anchors: seq<Anchor>, i: nat, results: seq<Item>, limit: int)
    requires i <= |anchors|
    requires results == FirstOccurrences(KeepSome(anchors[..i], Candidate), ItemUrl)
    requires |results| == Cap(limit)
    ensures results == MlbResults(anchors, limit)
  {
    KeepSomePrefix(anchors[..i], anchors, Candidate);
    FirstOccurrencesPrefix(KeepSome(anchors[..i], Candidate), KeepSome(anchors, Candidate), ItemUrl);
  }

  /** The filter loop of `search_mlb`, with its seen-set and the `break` at the limit. */
  method SearchMlb(anchors: seq<Anchor>, limit: int) returns (results: seq<Item>)
    ensures results == MlbResults(anchors, limit)
  {
    results := [];
    var seen: set<string> := {};
    for i := 0 to |anchors|
      invariant results == FirstOccurrences(KeepSome(anchors[..i], Candidate), ItemUrl)
      invariant seen == Keys(results, ItemUrl)
      invariant |results| < Cap(limit)
    {
      var href, title := anchors[i].href, anchors[i].text;
      ReadAnchor(anchors, i, results);
      if href == "" || title == "" {
        continue;
      }
      if StartsWith(href, "/") {
        href := Origin + href;
      }
      if !StartsWith(href, Origin) {
        continue;
      }
      var item := Item(title, href, "");
      assert Candidate(anchors[i]) == Some(item);
      if href in seen {
        continue;
      }
      seen := seen + {href};
      results := results + [item];
      if |results| >= limit {
        StopAt(anchors, i + 1, results, limit);
        return;
      }
    }
    assert anchors[..|anchors|] == anchors;
  }

  /** No url appears twice among the results, and there are at most `limit` of them
      for `limit >= 1`. */
  lemma MlbResultsDistinct(anchors: seq<Anchor>, limit: int)
    ensures 1 <= limit ==> |MlbResults(anchors, limit)| <= limit
    ensures forall i, j :: 0 <= i < j < |MlbResults(anchors, limit)| ==>
      MlbResults(anchors, limit)[i].url != MlbResults(anchors, limit)[j].url
  {
    var firsts := FirstOccurrences(KeepSome(anchors, Candidate), ItemUrl);
    assert forall i :: 0 <= i < |firsts| ==> ItemUrl(firsts[i]) == firsts[i].url;
  }

  /** Every result is the candidate of some anchor of the page. */
  lemma MlbResultsFrom(anchors: seq<Anchor>, limit: int)
    ensures forall r :: r in MlbResults(anchors, limit) ==> exists j :: 0 <= j < |anchors| && Candidate(anchors[j]) == Some(r)
  {
    var all := KeepSome(anchors, Candidate);
    KeepSomeFrom(anchors, Candidate);
    FirstOccurrencesFrom(all, ItemUrl);
  }

  /** Every result's url starts with the origin and is the anchor's href, resolved;
      its title is the anchor's non-empty text; its snippet is empty. */
  lemma MlbResultsShape(anchors: seq<Anchor>, limit: int)
    ensures forall r :: r in MlbResults(anchors, limit) ==>
      && StartsWith(r.url, Origin) && r.title != "" && r.snippet == ""
      && exists j :: 0 <= j < |anchors| && anchors[j].href != "" && r.title == anchors[j].text && r.url == Resolve(anchors[j].href)
  {
    MlbResultsFrom(anchors, limit);
  }

  /** The domain test is a plain prefix test on the resolved href: a href that
      starts with `/` (a protocol-relative `//host/...` included) is glued to the
      origin and kept; any href that starts with the origin is kept, a look-alike host
      such as `https://www.mlb.com.example` included; every other non-empty href is
      dropped. */
  lemma CandidateCases(href: string, text: string)
    requires text != ""
    ensures StartsWith(href, "/") ==> Candidate(Anchor(href, text)) == Some(Item(text, Origin + href, ""))
    ensures StartsWith(href, Origin) ==> Candidate(Anchor(href, text)) == Some(Item(text, href, ""))
    ensures href != "" && !StartsWith(href, "/") && !StartsWith(href, Origin) ==> Candidate(Anchor(href, text)) == None
  {
    if StartsWith(href, Origin) {
      assert href[0] == Origin[0];
    }
  }
}
