/** `search_wikipedia`: pair the titles and links of an OpenSearch reply
    position by position and attach each title's page summary. The HTTP requests are
    not modelled: the model receives the reply's title and link lists and, per
    title, what the summary endpoint answered. */
module Wikipedia {
  import opened Results
  import opened Records

  /** The two lists of the OpenSearch reply that the code reads: `data[1]` and
      `data[3]`. */
  datatype OpenSearch = OpenSearch(titles: seq<string>, links: seq<string>)

  /** What the summary request for one title gave: a request exception, or a reply
      with or without an `extract`. */
  datatype SummaryReply = LookupFailed | Reply(extract: Option<string>)

  /** For a title, the reply of the summary endpoint. */
  type SummaryOf = string -> SummaryReply

  /** The snippet taken from a summary reply: `""` when the request failed or the
      reply has no `extract`. */
  function SummaryText(reply: SummaryReply): string {
    match reply
    case LookupFailed => ""
    case Reply(extract) => extract.GetOr("")
  }

  function Min(a: nat, b: nat): nat {
    if a <= b then a else b
  }

  /** What `search_wikipedia` returns once the OpenSearch reply is in. */
  function WikiResults(reply: OpenSearch, summaryOf: SummaryOf): seq<Item> {
    var n := Min(|reply.titles|, |reply.links|);
    seq(n, i requires 0 <= i < n => Item(reply.titles[i], reply.links[i], SummaryText(summaryOf(reply.titles[i]))))
  }

  /** The `zip` loop of `search_wikipedia`, one summary request per pair. */
  method SearchWikipedia(reply: OpenSearch, summaryOf: SummaryOf) returns (results: seq<Item>)
    ensures results == WikiResults(reply, summaryOf)
  {
    var titles, links := reply.titles, reply.links;
    results := [];
    var i := 0;
    while i < |titles| && i < |links|
      invariant 0 <= i <= Min(|titles|, |links|)
      invariant |results| == i
      invariant forall k :: 0 <= k < i ==> results[k] == WikiResults(reply, summaryOf)[k]
    {
      var title, link := titles[i], links[i];
      var summary := "";
      match summaryOf(title) {
        case LookupFailed =>
          summary := "";
        case Reply(extract) =>
          summary := if extract.Some? then extract.value else "";
      }
      results := results + [Item(title, link, summary)];
      i := i + 1;
    }
  }

  /** One result per position that both lists have, with no cap of its own: pair `i`
      is the `i`-th title and the `i`-th link, and its snippet is that title's
      extract, or `""` when the lookup failed or gave none. */
  lemma WikiResultsZip(reply: OpenSearch, summaryOf: SummaryOf)
    ensures |WikiResults(reply, summaryOf)| == Min(|reply.titles|, |reply.links|)
    ensures |WikiResults(reply, summaryOf)| <= |reply.titles| && |WikiResults(reply, summaryOf)| <= |reply.links|
    ensures forall i :: 0 <= i < |WikiResults(reply, summaryOf)| ==>
      var r := WikiResults(reply, summaryOf)[i];
      && r.title == reply.titles[i] && r.url == reply.links[i]
      && (summaryOf(r.title).LookupFailed? ==> r.snippet == "")
      && (summaryOf(r.title) == Reply(None) ==> r.snippet == "")
      && (summaryOf(r.title).Reply? && summaryOf(r.title).extract.Some? ==> r.snippet == summaryOf(r.title).extract.value)
  {
  }

  /** A failed summary lookup costs only that result's snippet. */
  lemma WikiExample(summaryOf: SummaryOf)
    requires summaryOf("A") == LookupFailed
    requires summaryOf("B") == Reply(Some("sB"))
    ensures WikiResults(OpenSearch(["A", "B"], ["u1", "u2", "u3"]), summaryOf) == [Item("A", "u1", ""), Item("B", "u2", "sB")]
  {
  }
}
