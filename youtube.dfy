/** `parse_youtube_results`: find every `videoRenderer` object in the JSON data that
    YouTube embeds in its result page and turn each usable one into a result. The
    regular expressions that locate the embedded data and `json.loads` are not
    modelled: the model receives what they produce. */
module Youtube {
  import opened Results
  import opened Text
  import opened Records

  /** A JSON value as `json.loads` returns it: an object keeps its members in document
      order. Numbers are integers. */
  datatype Json =
    | JNull
    | JBool(b: bool)
    | JNum(n: int)
    | JStr(s: string)
    | JArr(items: seq<Json>)
    | JObj(fields: seq<(string, Json)>)

  /** What the two regular expressions and `json.loads` make of the page: no
      `ytInitialData` assignment, an assignment whose text is not valid JSON (a
      `json.loads` error that escapes the function), or the parsed data. */
  datatype Embedded = NoMatch | Malformed | Parsed(data: Json)

  /** What one `videoRenderer` value contributes: nothing (the `continue`), a result,
      or an exception that ends the whole call. */
  datatype Step = Skip | Keep(item: Item) | Fail(error: Error)

  const RendererKey: string := "videoRenderer"
  const WatchPrefix: string := "https://www.youtube.com/watch?v="

  /** `key in obj` and `obj[key]`. Objects are taken to have distinct keys, as a
      Python dict does. */
  function Lookup(fields: seq<(string, Json)>, key: string): (r: Option<Json>)
    ensures r.Some? <==> exists i :: 0 <= i < |fields| && fields[i].0 == key
    ensures r.Some? ==> exists i :: 0 <= i < |fields| && fields[i] == (key, r.value)
  {
    if fields == [] then None
    else if fields[0].0 == key then Some(fields[0].1)
    else
      var r := Lookup(fields[1..], key);
      assert forall i :: 0 < i < |fields| ==> fields[i] == fields[1..][i - 1];
      r
  }

  /** The generator `walk(node)`, listed: a dict yields its `videoRenderer` value (if
      it has one) and then everything found in its values, the renderer itself
      included; a list yields everything found in its items; anything else yields
      nothing. Depth first, in document order. */
  function Walk(node: Json): (r: seq<Json>)
    ensures !node.JObj? && !node.JArr? ==> r == []
    ensures node.JObj? && Lookup(node.fields, RendererKey).Some? ==> r != [] && r[0] == Lookup(node.fields, RendererKey).value
    decreases node
  {
    match node
    case JObj(fields) =>
      var own := match Lookup(fields, RendererKey) case Some(v) => [v] case None => [];
      own + Flatten(seq(|fields|, i requires 0 <= i < |fields| => assert fields[i] in fields; Walk(fields[i].1)))
    case JArr(items) =>
      Flatten(seq(|items|, i requires 0 <= i < |items| => assert items[i] in items; Walk(items[i])))
    case _ => []
  }

  /** Python truthiness of a JSON value. */
  function Truthy(v: Json): bool {
    match v
    case JNull => false
    case JBool(b) => b
    case JNum(n) => n != 0
    case JStr(s) => s != ""
    case JArr(items) => items != []
    case JObj(fields) => fields != []
  }

  /** `run.get("text", "")` for one element of a runs list: it must be a dict, and a
      `text` it holds must be a string for `"".join` to accept it. */
  function RunText(run: Json): Result<string> {
    match run
    case JObj(f) => (
      match Lookup(f, "text")
      case None => Success("")
      case Some(JStr(s)) => Success(s)
      case Some(_) => Failure(ParseError))
    case _ => Failure(ParseError)
  }

  /** `"".join(run.get("text", "") for run in runs)` over a list of runs. */
  function JoinRuns(runs: seq<Json>): Result<string> {
    if runs == [] then Success("")
    else
      match JoinRuns(runs[..|runs| - 1])
      case Failure(e) => Failure(e)
      case Success(t) => (
        match RunText(runs[|runs| - 1])
        case Failure(e) => Failure(e)
        case Success(s) => Success(t + s))
  }

  /** The join over whatever `runs` holds: iterating a dict or a string yields
      strings, which have no `.get`, so only an empty one passes; a scalar is not
      iterable. */
  function RunsText(runs: Json): Result<string> {
    match runs
    case JArr(items) => JoinRuns(items)
    case JObj(f) => if f == [] then Success("") else Failure(ParseError)
    case JStr(s) => if s == "" then Success("") else Failure(ParseError)
    case _ => Failure(ParseError)
  }

  /** `video.get(key, {}).get("runs", [])`, joined: a missing field reads as no runs;
      a field that is not a dict has no `.get`. */
  function FieldText(video: seq<(string, Json)>, key: string): (r: Result<string>)
    ensures Lookup(video, key).None? ==> r == Success("")
    ensures Lookup(video, key).Some? && !Lookup(video, key).value.JObj? ==> r.Failure?
    ensures Lookup(video, key).Some? && Lookup(video, key).value.JObj? ==>
      var runs := Lookup(Lookup(video, key).value.fields, "runs");
      && (runs.None? ==> r == Success(""))
      && (runs.Some? && runs.value.JArr? ==> r == JoinRuns(runs.value.items))
      && (runs.Some? && (runs.value.JNull? || runs.value.JBool? || runs.value.JNum?) ==> r.Failure?)
  {
    match Lookup(video, key)
    case None => Success("")
    case Some(JObj(f)) => (
      match Lookup(f, "runs")
      case None => Success("")
      case Some(runs) => RunsText(runs))
    case Some(_) => Failure(ParseError)
  }

  /** The text an id has inside the f-string: a string is itself; for any other
      value `render` stands for Python's `str()` of it. */
  function IdText(id: Json, render: Json -> string): string {
    if id.JStr? then id.s else render(id)
  }

  /** One iteration of the loop over `walk(data)`. The title is read (and may fail)
      before the id is tested; the description is read only for a video that is
      kept. A renderer that is not a dict has no `.get`. */
  function VideoStep(video: Json, render: Json -> string): (r: Step)
    ensures !video.JObj? ==> r == Fail(ParseError)
    ensures video.JObj? && FieldText(video.fields, "title").Failure? ==> r.Fail?
    ensures video.JObj? && FieldText(video.fields, "title").Success? ==>
      var id := Lookup(video.fields, "videoId");
      (r.Skip? <==> id.None? || !Truthy(id.value) || Strip(FieldText(video.fields, "title").value) == "")
    ensures r.Keep? <==>
      && video.JObj? && FieldText(video.fields, "title").Success?
      && Lookup(video.fields, "videoId").Some? && Truthy(Lookup(video.fields, "videoId").value)
      && Strip(FieldText(video.fields, "title").value) != ""
      && FieldText(video.fields, "descriptionSnippet").Success?
    ensures r.Keep? ==> r.item.title != "" && StartsWith(r.item.url, WatchPrefix)
  {
    match video
    case JObj(f) => (
      var id := Lookup(f, "videoId");
      match FieldText(f, "title")
      case Failure(e) => Fail(e)
      case Success(raw) =>
        var title := Strip(raw);
        if id.None? || !Truthy(id.value) || title == "" then Skip
        else
          match FieldText(f, "descriptionSnippet")
          case Failure(e) => Fail(e)
          case Success(desc) => Keep(Item(title, WatchPrefix + IdText(id.value, render), Strip(desc))))
    case _ => Fail(ParseError)
  }

  function Steps(videos: seq<Json>, render: Json -> string): (r: seq<Step>)
    ensures |r| == |videos|
  {
    seq(|videos|, i requires 0 <= i < |videos| => VideoStep(videos[i], render))
  }

  /** The loop over the steps: stop at the first failure, or after the result that
      reaches the cap. Defined from the end, like the loop that computes it. */
  function Gather(steps: seq<Step>, limit: int): Result<seq<Item>> {
    if steps == [] then Success([])
    else
      match Gather(steps[..|steps| - 1], limit)
      case Failure(e) => Failure(e)
      case Success(items) =>
        if Cap(limit) <= |items| then Success(items)
        else
          match steps[|steps| - 1]
          case Skip => Success(items)
          case Keep(x) => Success(items + [x])
          case Fail(e) => Failure(e)
  }

  /** What `parse_youtube_results(html, limit)` returns, or the exception it raises. */
  function YoutubeResults(page: Embedded, limit: int, render: Json -> string): Result<seq<Item>> {
    match page
    case NoMatch => Success([])
    case Malformed => Failure(ParseError)
    case Parsed(data) => Gather(Steps(Walk(data), render), limit)
  }

  function StepItem(st: Step): Option<Item> {
    if st.Keep? then Some(st.item) else None
  }

  /** The results the steps would give with no cap and no failure. */
  function Kept(steps: seq<Step>): seq<Item> {
    KeepSome(steps, StepItem)
  }

  /** A failure that the loop reaches: one before the cap is filled. */
  ghost predicate FailsBeforeCap(steps: seq<Step>, limit: int) {
    exists j :: 0 <= j < |steps| && steps[j].Fail? && |Kept(steps[..j])| < Cap(limit)
  }

  lemma KeptSnoc(steps: seq<Step>)
    requires steps != []
    ensures Kept(steps) == Kept(steps[..|steps| - 1]) + (if steps[|steps| - 1].Keep? then [steps[|steps| - 1].item] else [])
  {
  }

  /** A failure reached by the loop is reached in the steps without the last one,
      or is the last step itself. */
  lemma FailsBeforeCapSnoc(steps: seq<Step>, limit: int)
    requires steps != []
    ensures var p, last := steps[..|steps| - 1], steps[|steps| - 1];
      FailsBeforeCap(steps, limit) <==> FailsBeforeCap(p, limit) || (last.Fail? && |Kept(p)| < Cap(limit))
  {
    var p, last := steps[..|steps| - 1], steps[|steps| - 1];
    forall j | 0 <= j < |p| ensures steps[j] == p[j] && steps[..j] == p[..j] {}
    assert steps[..|p|] == p;
    if FailsBeforeCap(p, limit) {
      var j :| 0 <= j < |p| && p[j].Fail? && |Kept(p[..j])| < Cap(limit);
      assert steps[j].Fail? && |Kept(steps[..j])| < Cap(limit);
    }
    if last.Fail? && |Kept(p)| < Cap(limit) {
      assert steps[|p|].Fail? && |Kept(steps[..|p|])| < Cap(limit);
    }
  }

  /** The loop either fails, exactly when it reaches a failing step before the cap
      is filled, or returns the first `Cap(limit)` results of the steps. */
  lemma {:induction false} GatherSpec(steps: seq<Step>, limit: int)
    ensures Gather(steps, limit).Failure? <==> FailsBeforeCap(steps, limit)
    ensures Gather(steps, limit).Success? ==> Gather(steps, limit).value == Capped(Kept(steps), limit)
    decreases |steps|
  {
    if steps != [] {
      var p := steps[..|steps| - 1];
      GatherSpec(p, limit);
      KeptSnoc(steps);
      FailsBeforeCapSnoc(steps, limit);
    }
  }

  /** Once the steps read so far have failed or filled the cap, later steps are
      never looked at. */
  lemma {:induction false} GatherSettled(steps: seq<Step>, i: nat, limit: int)
    requires i <= |steps|
    requires Gather(steps[..i], limit).Failure? || Cap(limit) <= |Gather(steps[..i], limit).value|
    ensures Gather(steps, limit) == Gather(steps[..i], limit)
    decreases |steps| - i
  {
    if i < |steps| {
      assert steps[..i + 1][..i] == steps[..i];
      GatherSettled(steps, i + 1, limit);
    } else {
      assert steps[..i] == steps;
    }
  }

  lemma GatherStep(steps: seq<Step>, i: nat, limit: int)
    requires i < |steps|
    ensures Gather(steps[..i + 1], limit) ==
      match Gather(steps[..i], limit)
      case Failure(e) => Failure(e)
      case Success(items) =>
        if Cap(limit) <= |items| then Success(items)
        else
          match steps[i]
          case Skip => Success(items)
          case Keep(x) => Success(items + [x])
          case Fail(e) => Failure(e)
  {
    assert steps[..i + 1][..i] == steps[..i];
  }

  /** The loop of `parse_youtube_results` over `walk(data)`, with the `break` at the
      limit; an exception raised while reading a renderer ends the call. */
  method ParseYoutubeResults(page: Embedded, limit: int, render: Json -> string) returns (r: Result<seq<Item>>)
    ensures r == YoutubeResults(page, limit, render)
  {
    if page.NoMatch? {
      return Success([]);
    }
    if page.Malformed? {
      return Failure(ParseError);
    }
    var found := Walk(page.data);
    ghost var steps := Steps(found, render);
    var videos: seq<Item> := [];
    for i := 0 to |found|
      invariant Gather(steps[..i], limit) == Success(videos)
      invariant |videos| < Cap(limit)
    {
      GatherStep(steps, i, limit);
      var video := found[i];
      if !video.JObj? {
        GatherSettled(steps, i + 1, limit);
        return Failure(ParseError);
      }
      var id := Lookup(video.fields, "videoId");
      var rawTitle := FieldText(video.fields, "title");
      if rawTitle.Failure? {
        GatherSettled(steps, i + 1, limit);
        return Failure(rawTitle.error);
      }
      var title := Strip(rawTitle.value);
      if id.None? || !Truthy(id.value) || title == "" {
        continue;
      }
      var url := WatchPrefix + IdText(id.value, render);
      var description := FieldText(video.fields, "descriptionSnippet");
      if description.Failure? {
        GatherSettled(steps, i + 1, limit);
        return Failure(description.error);
      }
      videos := videos + [Item(title, url, Strip(description.value))];
      if |videos| >= limit {
        GatherSettled(steps, i + 1, limit);
        return Success(videos);
      }
    }
    assert steps[..|found|] == steps;
    return Success(videos);
  }

  /** A kept video is a dict with a truthy `videoId`; its url is the watch url of
      that id, its title is the non-empty stripped join of the title runs, and its
      snippet is the stripped join of the description runs. */
  lemma VideoStepKept(video: Json, render: Json -> string)
    requires VideoStep(video, render).Keep?
    ensures var x := VideoStep(video, render).item;
      && video.JObj?
      && Lookup(video.fields, "videoId").Some? && Truthy(Lookup(video.fields, "videoId").value)
      && x.url == WatchPrefix + IdText(Lookup(video.fields, "videoId").value, render)
      && StartsWith(x.url, WatchPrefix)
      && x.title != "" && !IsSpace(x.title[0]) && !IsSpace(x.title[|x.title| - 1])
      && (x.snippet != "" ==> !IsSpace(x.snippet[0]) && !IsSpace(x.snippet[|x.snippet| - 1]))
      && FieldText(video.fields, "title").Success? && x.title == Strip(FieldText(video.fields, "title").value)
      && FieldText(video.fields, "descriptionSnippet").Success?
      && x.snippet == Strip(FieldText(video.fields, "descriptionSnippet").value)
  {
    var f := video.fields;
    var title, desc := FieldText(f, "title").value, FieldText(f, "descriptionSnippet").value;
    assert VideoStep(video, render).item == Item(Strip(title), WatchPrefix + IdText(Lookup(f, "videoId").value, render), Strip(desc));
    StripEnds(title);
    StripEnds(desc);
  }

  /** Every result of a successful loop is the result of one of the renderers. */
  lemma GatheredFrom(found: seq<Json>, limit: int, render: Json -> string)
    requires Gather(Steps(found, render), limit).Success?
    ensures |Gather(Steps(found, render), limit).value| <= Cap(limit)
    ensures forall x :: x in Gather(Steps(found, render), limit).value ==>
      exists j :: 0 <= j < |found| && VideoStep(found[j], render) == Keep(x)
  {
    var steps := Steps(found, render);
    GatherSpec(steps, limit);
    KeepSomeFrom(steps, StepItem);
    forall x | x in Gather(steps, limit).value
      ensures exists j :: 0 <= j < |found| && VideoStep(found[j], render) == Keep(x)
    {
      var j :| 0 <= j < |steps| && StepItem(steps[j]) == Some(x);
      assert steps[j] == VideoStep(found[j], render);
    }
  }

  /** A page without embedded data gives no results, malformed data raises, and
      otherwise the call either raises or returns at most `Cap(limit)` results, each
      with a watch url and a non-empty title. */
  lemma YoutubeResultsShape(page: Embedded, limit: int, render: Json -> string)
    ensures page.NoMatch? ==> YoutubeResults(page, limit, render) == Success([])
    ensures page.Malformed? ==> YoutubeResults(page, limit, render).Failure?
    ensures YoutubeResults(page, limit, render).Success? ==> |YoutubeResults(page, limit, render).value| <= Cap(limit)
    ensures page.Parsed? && YoutubeResults(page, limit, render).Success? ==>
      forall x :: x in YoutubeResults(page, limit, render).value ==>
        StartsWith(x.url, WatchPrefix) && x.title != ""
  {
    if page.Parsed? && YoutubeResults(page, limit, render).Success? {
      var found := Walk(page.data);
      GatheredFrom(found, limit, render);
      forall x | x in Gather(Steps(found, render), limit).value
        ensures StartsWith(x.url, WatchPrefix) && x.title != ""
      {
        var j :| 0 <= j < |found| && VideoStep(found[j], render) == Keep(x);
        VideoStepKept(found[j], render);
      }
    }
  }

  /** The walk of a container finds everything that the walks of its members find:
      with the renderer a dict yields first, every renderer at any depth is found,
      including renderers nested inside renderers. */
  lemma WalkFindsMembers(node: Json)
    ensures node.JObj? && Lookup(node.fields, RendererKey).Some? ==> Lookup(node.fields, RendererKey).value in Walk(node)
    ensures node.JObj? ==> forall i, v :: 0 <= i < |node.fields| && v in Walk(node.fields[i].1) ==> v in Walk(node)
    ensures node.JArr? ==> forall i, v :: 0 <= i < |node.items| && v in Walk(node.items[i]) ==> v in Walk(node)
  {
    match node
    case JObj(fields) =>
      var walks := seq(|fields|, i requires 0 <= i < |fields| => Walk(fields[i].1));
      assert Walk(node) == (match Lookup(fields, RendererKey) case Some(v) => [v] case None => []) + Flatten(walks);
      forall i, v | 0 <= i < |fields| && v in Walk(fields[i].1) ensures v in Walk(node) {
        FlattenMember(walks, i, v);
      }
    case JArr(items) =>
      var walks := seq(|items|, i requires 0 <= i < |items| => Walk(items[i]));
      assert Walk(node) == Flatten(walks);
      forall i, v | 0 <= i < |items| && v in Walk(items[i]) ensures v in Walk(node) {
        FlattenMember(walks, i, v);
      }
    case _ =>
  }

  /** `o` is `node` itself or lies, at any depth, inside one of its member values or
      items. */
  ghost predicate Within(o: Json, node: Json)
    decreases node
  {
    || o == node
    || (node.JObj? && exists p :: p in node.fields && Within(o, p.1))
    || (node.JArr? && exists x :: x in node.items && Within(o, x))
  }

  /** The walk yields nothing but renderers: every value it yields is the
      `videoRenderer` member of some dict inside the node. */
  lemma WalkOnlyRenderers(node: Json)
    ensures forall v :: v in Walk(node) ==>
      exists o :: Within(o, node) && o.JObj? && Lookup(o.fields, RendererKey) == Some(v)
    decreases node
  {
    match node
    case JObj(fields) =>
      var walks := seq(|fields|, i requires 0 <= i < |fields| => Walk(fields[i].1));
      var own := match Lookup(fields, RendererKey) case Some(v) => [v] case None => [];
      assert Walk(node) == own + Flatten(walks);
      forall v | v in Walk(node)
        ensures exists o :: Within(o, node) && o.JObj? && Lookup(o.fields, RendererKey) == Some(v)
      {
        if v in own {
          assert Within(node, node);
        } else {
          var i := FlattenFrom(walks, v);
          assert fields[i] in fields;
          WalkOnlyRenderers(fields[i].1);
          var o :| Within(o, fields[i].1) && o.JObj? && Lookup(o.fields, RendererKey) == Some(v);
          assert Within(o, node);
        }
      }
    case JArr(items) =>
      var walks := seq(|items|, i requires 0 <= i < |items| => Walk(items[i]));
      assert Walk(node) == Flatten(walks);
      forall v | v in Walk(node)
        ensures exists o :: Within(o, node) && o.JObj? && Lookup(o.fields, RendererKey) == Some(v)
      {
        var i := FlattenFrom(walks, v);
        assert items[i] in items;
        WalkOnlyRenderers(items[i]);
        var o :| Within(o, items[i]) && o.JObj? && Lookup(o.fields, RendererKey) == Some(v);
        assert Within(o, node);
      }
    case _ =>
  }

  /** A renderer nested inside a renderer is found after it. */
  lemma WalkNestedRenderer()
    ensures var inner := JObj([(RendererKey, JStr("x"))]);
      Walk(JObj([(RendererKey, inner)])) == [inner, JStr("x")]
  {
    var leaf := [(RendererKey, JStr("x"))];
    var inner := JObj(leaf);
    var outer := [(RendererKey, inner)];
    assert Lookup(leaf, RendererKey) == Some(JStr("x"));
    assert Lookup(outer, RendererKey) == Some(inner);
    var w1 := seq(|leaf|, i requires 0 <= i < |leaf| => Walk(leaf[i].1));
    assert w1 == [[]];
    assert Flatten(w1) == [];
    assert Walk(inner) == [JStr("x")];
    var w2 := seq(|outer|, i requires 0 <= i < |outer| => Walk(outer[i].1));
    assert w2 == [[JStr("x")]];
    assert Flatten(w2) == [JStr("x")];
  }

  /** Joining runs fails exactly when some run is not a dict or holds a `text` that is
      not a string. */
  lemma {:induction false} JoinRunsFails(runs: seq<Json>)
    ensures JoinRuns(runs).Failure? <==> exists j :: 0 <= j < |runs| && RunText(runs[j]).Failure?
    decreases |runs|
  {
    if runs != [] {
      var p := runs[..|runs| - 1];
      JoinRunsFails(p);
      forall j | 0 <= j < |p| ensures runs[j] == p[j] {}
      if RunText(runs[|runs| - 1]).Failure? {
        assert RunText(runs[|p|]).Failure?;
      }
    }
  }
}
