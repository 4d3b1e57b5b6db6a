/** `build_sections`, the source-list parsing of `main` and the part of
    `generate_report` that precedes the Markdown formatting: run the requested
    adapters in order, enrich each one's results and label them. */
module Pipeline {
  import opened Results
  import opened Text
  import opened Records
  import opened Dedup
  import Aggregation
  import Enrichment
  import Mlb
  import Google
  import Youtube
  import Wikipedia

  /** Everything the network gives for one query: each primary request's reply (a
      `Failure` standing for the exception `fetch` or `fetch_json` raises, or a reply
      whose shape the code cannot index), the summary endpoint, each result page's
      text, and the two library routines the model keeps abstract. The same request
      always gets the same answer. */
  datatype Web = Web(
    openSearch: Result<Wikipedia.OpenSearch>,
    summaryOf: Wikipedia.SummaryOf,
    mlbPage: Result<seq<Mlb.Anchor>>,
    googlePage: Result<seq<Google.Block>>,
    youtubePage: Result<Youtube.Embedded>,
    pageText: Enrichment.PageText,
    queryValues: Google.QueryValues,
    render: Youtube.Json -> string)

  predicate Known(name: string) {
    name == "wikipedia" || name == "mlb" || name == "google" || name == "youtube"
  }

  /** The section heading of each known source. */
  function Label(name: string): string {
    if name == "wikipedia" then "维基百科"
    else if name == "mlb" then "MLB 官方网站"
    else if name == "google" then "Google 搜索（前10条）"
    else "YouTube 搜索（前10条）"
  }

  /** The line written to standard error for a name that is not a source. */
  function UnknownMessage(name: string): string {
    "未知来源：" + name
  }

  /** The adapter's results for a known source at the default limit, before
      enrichment, or the exception that escapes it. */
  function Fetched(web: Web, name: string): Result<seq<Item>>
    requires Known(name)
  {
    if name == "wikipedia" then
      match web.openSearch
      case Failure(e) => Failure(e)
      case Success(reply) => Success(Wikipedia.WikiResults(reply, web.summaryOf))
    else if name == "mlb" then
      match web.mlbPage
      case Failure(e) => Failure(e)
      case Success(anchors) => Success(Mlb.MlbResults(anchors, DefaultLimit))
    else if name == "google" then
      match web.googlePage
      case Failure(e) => Failure(e)
      case Success(blocks) => Success(Google.GoogleResults(blocks, DefaultLimit, web.queryValues))
    else
      match web.youtubePage
      case Failure(e) => Failure(e)
      case Success(page) => Youtube.YoutubeResults(page, DefaultLimit, web.render)
  }

  /** The section a known source contributes. */
  function SectionFor(web: Web, name: string): Result<Section>
    requires Known(name)
  {
    match Fetched(web, name)
    case Failure(e) => Failure(e)
    case Success(items) => Success(Section(Label(name), Enrichment.Enriched(items, web.pageText)))
  }

  /** The sections built so far (or the exception that ended the loop) and the lines
      written to standard error before it ended. */
  datatype Outcome = Outcome(sections: Result<seq<Section>>, diagnostics: seq<string>)

  /** What one name does: `None` for a name that is not a source, otherwise the
      section it contributes or the exception it raises. */
  type SourceStep = string -> Option<Result<Section>>

  /** The loop of `build_sections` for a given meaning of each name: stop at the
      first exception, print a line for each unknown name. Defined from the end, like
      the loop that computes it. */
  function Run(sources: seq<string>, step: SourceStep): (r: Outcome)
    ensures |r.diagnostics| <= |sources|
    ensures r.sections.Success? ==> |r.sections.value| + |r.diagnostics| == |sources|
  {
    if sources == [] then Outcome(Success([]), [])
    else
      var o := Run(sources[..|sources| - 1], step);
      var name := sources[|sources| - 1];
      if o.sections.Failure? then o
      else
        match step(name)
        case None => Outcome(o.sections, o.diagnostics + [UnknownMessage(name)])
        case Some(Failure(e)) => Outcome(Failure(e), o.diagnostics)
        case Some(Success(sec)) => Outcome(Success(o.sections.value + [sec]), o.diagnostics)
  }

  /** The meaning of each name in `build_sections`. */
  function StepOf(web: Web): SourceStep {
    name => if Known(name) then Some(SectionFor(web, name)) else None
  }

  /** What `build_sections(query, sources)` returns or raises, and what it prints. */
  function Built(web: Web, sources: seq<string>): Outcome {
    Run(sources, StepOf(web))
  }

  lemma RunStep(sources: seq<string>, i: nat, step: SourceStep)
    requires i < |sources|
    ensures var o := Run(sources[..i], step);
      Run(sources[..i + 1], step) ==
        if o.sections.Failure? then o
        else match step(sources[i])
          case None => Outcome(o.sections, o.diagnostics + [UnknownMessage(sources[i])])
          case Some(Failure(e)) => Outcome(Failure(e), o.diagnostics)
          case Some(Success(sec)) => Outcome(Success(o.sections.value + [sec]), o.diagnostics)
  {
    assert sources[..i + 1][..i] == sources[..i];
  }

  /** Once a name has raised, the names after it are never looked at. */
  lemma {:induction false} RunSettled(sources: seq<string>, i: nat, step: SourceStep)
    requires i <= |sources| && Run(sources[..i], step).sections.Failure?
    ensures Run(sources, step) == Run(sources[..i], step)
    decreases |sources| - i
  {
    if i < |sources| {
      RunStep(sources, i, step);
      RunSettled(sources, i + 1, step);
    } else {
      assert sources[..i] == sources;
    }
  }

  /** `enrich_items` on a fresh list holding `items`. */
  method Enrich(items: seq<Item>, page: Enrichment.PageText) returns (enriched: seq<Item>)
    ensures enriched == Enrichment.Enriched(items, page)
  {
    var buffer := new Item[|items|](i requires 0 <= i < |items| => items[i]);
    assert buffer[..] == items;
    Enrichment.EnrichItems(buffer, page);
    enriched := buffer[..];
  }

  /** `build_sections(query, sources)`: one labelled, enriched section per known
      name, in request order; a diagnostic line per unknown name; an exception from a
      primary request or from the YouTube parser ends the call. */
  method BuildSections(web: Web, sources: seq<string>) returns (sections: Result<seq<Section>>, diagnostics: seq<string>)
    ensures Outcome(sections, diagnostics) == Built(web, sources)
  {
    var built: seq<Section> := [];
    diagnostics := [];
    for i := 0 to |sources|
      invariant Built(web, sources[..i]) == Outcome(Success(built), diagnostics)
    {
      var source := sources[i];
      RunStep(sources, i, StepOf(web));
      var items: seq<Item>;
      if source == "wikipedia" {
        if web.openSearch.Failure? {
          RunSettled(sources, i + 1, StepOf(web));
          return Failure(web.openSearch.error), diagnostics;
        }
        items := Wikipedia.SearchWikipedia(web.openSearch.value, web.summaryOf);
      } else if source == "mlb" {
        if web.mlbPage.Failure? {
          RunSettled(sources, i + 1, StepOf(web));
          return Failure(web.mlbPage.error), diagnostics;
        }
        items := Mlb.SearchMlb(web.mlbPage.value, DefaultLimit);
      } else if source == "google" {
        if web.googlePage.Failure? {
          RunSettled(sources, i + 1, StepOf(web));
          return Failure(web.googlePage.error), diagnostics;
        }
        items := Google.ParseGoogleResults(web.googlePage.value, DefaultLimit, web.queryValues);
      } else if source == "youtube" {
        if web.youtubePage.Failure? {
          RunSettled(sources, i + 1, StepOf(web));
          return Failure(web.youtubePage.error), diagnostics;
        }
        var parsed := Youtube.ParseYoutubeResults(web.youtubePage.value, DefaultLimit, web.render);
        if parsed.Failure? {
          RunSettled(sources, i + 1, StepOf(web));
          return Failure(parsed.error), diagnostics;
        }
        items := parsed.value;
      } else {
        diagnostics := diagnostics + [UnknownMessage(source)];
        continue;
      }
      assert Fetched(web, source) == Success(items);
      var enriched := Enrich(items, web.pageText);
      built := built + [Section(Label(source), enriched)];
    }
    assert sources[..|sources|] == sources;
    sections := Success(built);
  }

  function StepItem(r: Option<Result<Section>>): Option<Section> {
    if r.Some? && r.value.Success? then Some(r.value.value) else None
  }

  /** The loop raises exactly when some name raises. */
  lemma {:induction false} RunFails(sources: seq<string>, step: SourceStep)
    ensures Run(sources, step).sections.Failure? <==>
      exists j :: 0 <= j < |sources| && step(sources[j]).Some? && step(sources[j]).value.Failure?
    decreases |sources|
  {
    if sources != [] {
      var p := sources[..|sources| - 1];
      RunFails(p, step);
      forall j | 0 <= j < |p| ensures sources[j] == p[j] {}
      var last := sources[|p|];
      if step(last).Some? && step(last).value.Failure? {
        assert step(sources[|p|]).Some? && step(sources[|p|]).value.Failure?;
      }
    }
  }

  /** The lines printed: one per name that is not a source, in order. */
  function UnknownLines(sources: seq<string>, step: SourceStep): seq<string> {
    KeepSome(sources, name => if step(name).None? then Some(UnknownMessage(name)) else None)
  }

  /** The sections of the names that are sources, in order, as long as none raises. */
  function Contributed(sources: seq<string>, step: SourceStep): seq<Section> {
    KeepSome(sources, name => StepItem(step(name)))
  }

  /** A run that does not raise returns the contributed sections in request order
      and prints one line per unknown name; a run that raises has printed the lines
      of the names before the failing one. */
  lemma {:induction false} RunSections(sources: seq<string>, step: SourceStep)
    ensures Run(sources, step).diagnostics <= UnknownLines(sources, step)
    ensures Run(sources, step).sections.Success? ==>
      && Run(sources, step).diagnostics == UnknownLines(sources, step)
      && Run(sources, step).sections.value == Contributed(sources, step)
    decreases |sources|
  {
    if sources != [] {
      var p, name := sources[..|sources| - 1], sources[|sources| - 1];
      assert sources == p + [name];
      RunSections(p, step);
      KeepSomeSnoc(p, name, name => if step(name).None? then Some(UnknownMessage(name)) else None);
      KeepSomeSnoc(p, name, name => StepItem(step(name)));
    }
  }

  /** `build_sections` raises exactly when some requested known source raises. */
  lemma BuiltFails(web: Web, sources: seq<string>)
    ensures Built(web, sources).sections.Failure? <==>
      exists j :: 0 <= j < |sources| && Known(sources[j]) && SectionFor(web, sources[j]).Failure?
  {
    RunFails(sources, StepOf(web));
  }

  /** The known names of a request, in order. */
  function Recognised(sources: seq<string>): seq<string> {
    KeepSome(sources, name => if Known(name) then Some(name) else None)
  }

  lemma {:induction false} ContributedOfKnown(web: Web, sources: seq<string>)
    requires forall j :: 0 <= j < |sources| && Known(sources[j]) ==> SectionFor(web, sources[j]).Success?
    ensures |Contributed(sources, StepOf(web))| == |Recognised(sources)|
    ensures forall i :: 0 <= i < |Recognised(sources)| ==>
      Known(Recognised(sources)[i]) && SectionFor(web, Recognised(sources)[i]) == Success(Contributed(sources, StepOf(web))[i])
    decreases |sources|
  {
    if sources != [] {
      var p, name := sources[..|sources| - 1], sources[|sources| - 1];
      assert sources == p + [name];
      forall j | 0 <= j < |p| ensures sources[j] == p[j] {}
      ContributedOfKnown(web, p);
      KeepSomeSnoc(p, name, name => StepItem(StepOf(web)(name)));
      KeepSomeSnoc(p, name, name => if Known(name) then Some(name) else None);
      assert Known(name) ==> SectionFor(web, sources[|p|]).Success?;
    }
  }

  /** A run of `build_sections` that does not raise returns one section per known
      name, in request order, each the labelled, enriched results of that source,
      and prints one line per unknown name, in request order. */
  lemma BuiltSections(web: Web, sources: seq<string>)
    ensures Built(web, sources).diagnostics <= UnknownLines(sources, StepOf(web))
    ensures Built(web, sources).sections.Success? ==>
      && Built(web, sources).diagnostics == UnknownLines(sources, StepOf(web))
      && |Built(web, sources).sections.value| == |Recognised(sources)|
      && forall i :: 0 <= i < |Recognised(sources)| ==>
           && Known(Recognised(sources)[i])
           && SectionFor(web, Recognised(sources)[i]) == Success(Built(web, sources).sections.value[i])
           && Built(web, sources).sections.value[i].name == Label(Recognised(sources)[i])
  {
    RunSections(sources, StepOf(web));
    if Built(web, sources).sections.Success? {
      BuiltFails(web, sources);
      ContributedOfKnown(web, sources);
    }
  }

  /** A name that is not a source adds no section, only a diagnostic line. */
  lemma UnknownSource(web: Web)
    ensures Built(web, ["bing"]) == Outcome(Success([]), ["未知来源：bing"])
  {
    assert !Known("bing") by {
      assert "bing"[0] == 'b';
    }
    assert StepOf(web)("bing") == None;
    assert ["bing"][..0] == [];
    assert Run([], StepOf(web)) == Outcome(Success([]), []);
    assert UnknownMessage("bing") == "未知来源：bing";
    assert [] + [UnknownMessage("bing")] == ["未知来源：bing"];
  }

  /** One entry of the comma-separated source list: stripped and lower-cased, or
      dropped when it is blank. */
  function SourceEntry(piece: string): Option<string> {
    var t := Strip(piece);
    if t == "" then None else Some(Lower(t))
  }

  /** `[s.strip().lower() for s in text.split(",") if s.strip()]`. */
  function ParseSources(text: string): (names: seq<string>)
    ensures forall n :: n in names ==> Normalised(n)
  {
    var pieces := SplitOn(text, ',');
    EntriesNormalised(pieces);
    KeepSome(pieces, SourceEntry)
  }

  /** A source list entry as the parser produces it. */
  predicate Normalised(name: string) {
    && name != ""
    && ',' !in name
    && IsLower(name)
    && !IsSpace(name[0]) && !IsSpace(name[|name| - 1])
  }

  lemma SourceEntryShape(piece: string)
    requires ',' !in piece
    ensures SourceEntry(piece).Some? ==> Normalised(SourceEntry(piece).value)
    ensures SourceEntry(piece).None? <==> AllSpace(piece)
  {
    StripEnds(piece);
    var t := Strip(piece);
    if t != "" {
      var l := Lower(t);
      forall c | c in l ensures c != ',' {
        var i :| 0 <= i < |l| && l[i] == c;
        assert t[i] in Strip(piece);
      }
    }
  }

  /** The entries of comma-free pieces are normalised names. */
  lemma EntriesNormalised(pieces: seq<string>)
    requires forall i :: 0 <= i < |pieces| ==> ',' !in pieces[i]
    ensures forall n :: n in KeepSome(pieces, SourceEntry) ==> Normalised(n)
  {
    KeepSomeFrom(pieces, SourceEntry);
    forall n | n in KeepSome(pieces, SourceEntry) ensures Normalised(n) {
      var j :| 0 <= j < |pieces| && SourceEntry(pieces[j]) == Some(n);
      SourceEntryShape(pieces[j]);
    }
  }

  lemma {:induction false} EntriesOfNormalised(names: seq<string>)
    requires forall i :: 0 <= i < |names| ==> Normalised(names[i])
    ensures KeepSome(names, SourceEntry) == names
    decreases |names|
  {
    if names != [] {
      var p, n := names[..|names| - 1], names[|names| - 1];
      EntriesOfNormalised(p);
      EntryOfNormalised(n);
    }
  }

  /** A normalised name is its own entry. */
  lemma EntryOfNormalised(n: string)
    requires Normalised(n)
    ensures SourceEntry(n) == Some(n)
  {
    StripTrimmed(n);
    assert Lower(n) == n;
  }

  /** Parsing a comma-joined list of normalised names gives the list back. */
  lemma ParseSourcesOfJoin(names: seq<string>)
    requires forall i :: 0 <= i < |names| ==> Normalised(names[i])
    ensures ParseSources(JoinWith(",", names)) == names
  {
    if names == [] {
      assert SplitOn("", ',') == [""];
      assert Strip("") == "";
      assert KeepSome([""], SourceEntry) == [] by {
        assert [""][..0] == [];
      }
    } else {
      SplitOfJoin(names, ',');
      EntriesOfNormalised(names);
    }
  }

  /** What `generate_report` hands to `format_markdown`: the sections and the
      summary, or the exception `build_sections` raised. */
  function Report(web: Web, sources: seq<string>): Result<(seq<Section>, seq<Entry>)> {
    match Built(web, sources).sections
    case Failure(e) => Failure(e)
    case Success(sections) => Success((sections, Aggregation.Aggregated(sections, DefaultLimit)))
  }

  /** `generate_report(query, sources)` up to the formatting: build the sections,
      then aggregate them with the default cap. */
  method GenerateReport(web: Web, sources: seq<string>) returns (report: Result<(seq<Section>, seq<Entry>)>, diagnostics: seq<string>)
    ensures report == Report(web, sources)
    ensures diagnostics == Built(web, sources).diagnostics
  {
    var sections;
    sections, diagnostics := BuildSections(web, sources);
    if sections.Failure? {
      return Failure(sections.error), diagnostics;
    }
    var summary := Aggregation.AggregateItems(sections.value, DefaultLimit);
    report := Success((sections.value, summary));
  }

  /** The summary holds at most ten entries with distinct non-empty urls, each taken
      from one of the report's sections and labelled with that section's heading. */
  lemma ReportSummary(web: Web, sources: seq<string>)
    ensures Report(web, sources).Success? ==>
      var (sections, summary) := Report(web, sources).value;
      && |summary| <= 10
      && (forall i, j :: 0 <= i < j < |summary| ==> summary[i].url != summary[j].url)
      && (forall e :: e in summary ==> e.url != "" && exists k :: 0 <= k < |sections| && sections[k].name == e.source)
  {
    if Report(web, sources).Success? {
      var sections := Built(web, sources).sections.value;
      Aggregation.AggregatedLength(sections, DefaultLimit);
      Aggregation.AggregatedDistinct(sections, DefaultLimit);
      Aggregation.AggregatedFrom(sections, DefaultLimit);
    }
  }
}
