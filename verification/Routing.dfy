/**
 Workspace routing of frontend/src/dashboard/routing.ts: paths that are printed, paths that are
 routed, and the query strings between them (sections 5.1 and 5.2 of the WHATWG URL Standard).
 */
module Routing {
  import opened Options

  datatype View = Dashboard | Guide | Models | Datasets | Prompts | Runs | Leaderboard | Analysis | Settings

  const VIEWS: seq<View> := [Dashboard, Guide, Models, Datasets, Prompts, Runs, Leaderboard, Analysis, Settings]

  function Path(view: View): string {
    match view
    case Dashboard => "/dashboard"
    case Guide => "/guide"
    case Models => "/models"
    case Datasets => "/datasets"
    case Prompts => "/prompts"
    case Runs => "/runs"
    case Leaderboard => "/leaderboard"
    case Analysis => "/analysis"
    case Settings => "/settings"
  }

  function Tabs(view: View): (tabs: seq<string>)
    ensures tabs != []
  {
    match view
    case Dashboard => ["summary", "evaluations", "readiness"]
    case Guide => ["getting-started", "prepare-data", "run-and-analyze"]
    case Models => ["model-inventory", "add-endpoint", "sandbox"]
    case Datasets => ["dataset-inventory", "register-dataset"]
    case Prompts => ["prompt-inventory", "new-prompt-package"]
    case Runs => ["run-inventory", "quick-start", "dataset-evaluation", "run-details"]
    case Leaderboard => ["rankings"]
    case Analysis => ["evidence-matrix", "compare-runs"]
    case Settings => ["health", "preferences"]
  }

  function DefaultTab(view: View): string {
    Tabs(view)[0]
  }

  // ---------- Query strings ----------

  predicate IdCharacter(c: char) {
    'A' <= c <= 'Z' || 'a' <= c <= 'z' || '0' <= c <= '9' || c == '_' || c == '-'
  }

  /** Characters that neither need encoding nor mean anything in a query. */
  predicate Safe(s: string) {
    forall i :: 0 <= i < |s| ==> IdCharacter(s[i])
  }

  predicate ValidId(id: Option<string>) {
    id.Some? && 1 <= |id.value| <= 200 && Safe(id.value)
  }

  /** Percent-decoding (with `+` for a space) and percent-encoding of names and values. */
  datatype Codec = Codec(decode: string -> string, encode: string -> string)

  ghost predicate Faithful(codec: Codec) {
    forall s :: Safe(s) ==> codec.decode(s) == s && codec.encode(s) == s
  }

  datatype Entry = Entry(name: string, value: string)

  /** The part before the first `c`, and the part after it if there is one. */
  function Break(s: string, c: char): (string, Option<string>) {
    if s == [] then ([], None)
    else if s[0] == c then ([], Some(s[1..]))
    else
      var (before, after) := Break(s[1..], c);
      ([s[0]] + before, after)
  }

  function ParseEntry(s: string, codec: Codec): Entry {
    var (name, value) := Break(s, '=');
    Entry(codec.decode(name), codec.decode(if value.Some? then value.value else []))
  }

  lemma {:induction false} BreakShrinks(s: string, c: char)
    ensures Break(s, c).1.Some? ==> |Break(s, c).1.value| < |s|
  {
    if s != [] && s[0] != c {
      BreakShrinks(s[1..], c);
    }
  }

  /** The `application/x-www-form-urlencoded` parser: empty parts are skipped. */
  function ParseList(s: string, codec: Codec): seq<Entry>
    decreases |s|
  {
    if s == [] then []
    else
      BreakShrinks(s, '&');
      var (first, rest) := Break(s, '&');
      (if first == [] then [] else [ParseEntry(first, codec)])
        + if rest.Some? then ParseList(rest.value, codec) else []
  }

  function Parse(search: string, codec: Codec): seq<Entry> {
    ParseList(if search != [] && search[0] == '?' then search[1..] else search, codec)
  }

  function SerializeEntry(entry: Entry, codec: Codec): string {
    codec.encode(entry.name) + ("=" + codec.encode(entry.value))
  }

  function Serialize(entries: seq<Entry>, codec: Codec): string {
    if entries == [] then []
    else if |entries| == 1 then SerializeEntry(entries[0], codec)
    else SerializeEntry(entries[0], codec) + ("&" + Serialize(entries[1..], codec))
  }

  function Get(entries: seq<Entry>, name: string): Option<string> {
    if entries == [] then None
    else if entries[0].name == name then Some(entries[0].value)
    else Get(entries[1..], name)
  }

  function Without(entries: seq<Entry>, name: string): seq<Entry> {
    if entries == [] then []
    else (if entries[0].name == name then [] else [entries[0]]) + Without(entries[1..], name)
  }

  /** `set`: the first entry of the name is replaced and later ones are removed, or one is appended. */
  function Put(entries: seq<Entry>, name: string, value: string): seq<Entry> {
    if entries == [] then [Entry(name, value)]
    else if entries[0].name == name then [Entry(name, value)] + Without(entries[1..], name)
    else [entries[0]] + Put(entries[1..], name, value)
  }

  class UrlSearchParams {
    var entries: seq<Entry>
    const codec: Codec

    constructor (search: string, codec: Codec)
      ensures entries == Parse(search, codec) && this.codec == codec
    {
      entries := Parse(search, codec);
      this.codec := codec;
    }

    method Set(name: string, value: string)
      modifies this
      ensures entries == Put(old(entries), name, value)
    {
      entries := Put(entries, name, value);
    }

    function Text(): string
      reads this
    {
      Serialize(entries, codec)
    }
  }

  // ---------- Printing a path ----------

  datatype Ids = Ids(dataset: Option<string>, endpoint: Option<string>, run: Option<string>)

  function IdQuery(view: View, tab: string, ids: Ids): seq<Entry> {
    if view == Runs && tab == "dataset-evaluation" && ValidId(ids.dataset) then [Entry("dataset", ids.dataset.value)]
    else if view == Runs && tab == "run-details" && ValidId(ids.run) then [Entry("run", ids.run.value)]
    else if view == Models && tab == "sandbox" && ValidId(ids.endpoint) then [Entry("endpoint", ids.endpoint.value)]
    else []
  }

  /** The query of a printed path. */
  function Query(view: View, tab: string, ids: Ids): seq<Entry> {
    (if tab != DefaultTab(view) then [Entry("tab", tab)] else []) + IdQuery(view, tab, ids)
  }

  function Search(view: View, tab: string, ids: Ids, codec: Codec): string {
    var query := Query(view, tab, ids);
    if query == [] then [] else "?" + Serialize(query, codec)
  }

  /** `workspacePath`. */
  method WorkspacePath(view: View, tab: string, ids: Ids, codec: Codec) returns (path: string)
    ensures path == Path(view) + Search(view, tab, ids, codec)
  {
    var params := new UrlSearchParams("", codec);
    if tab != DefaultTab(view) {
      params.Set("tab", tab);
    }
    if view == Runs && tab == "dataset-evaluation" && ValidId(ids.dataset) {
      params.Set("dataset", ids.dataset.value);
    }
    if view == Runs && tab == "run-details" && ValidId(ids.run) {
      params.Set("run", ids.run.value);
    }
    if view == Models && tab == "sandbox" && ValidId(ids.endpoint) {
      params.Set("endpoint", ids.endpoint.value);
    }
    assert params.entries == Query(view, tab, ids);
    path := if |params.entries| > 0 then Path(view) + ("?" + params.Text()) else Path(view);
    assert Path(view) + [] == Path(view);
  }

  // ---------- Routing ----------

  datatype Route = Route(view: View, tab: string, pathname: string, search: string, replacing: bool)

  function TrimSlashes(pathname: string): string {
    if pathname != [] && pathname[|pathname| - 1] == '/' then TrimSlashes(pathname[..|pathname| - 1]) else pathname
  }

  function Normalized(pathname: string): string {
    if pathname == "/" then "/" else TrimSlashes(pathname)
  }

  function NormalizedSearch(search: string): string {
    if search != [] && search[0] != '?' then "?" + search else search
  }

  /** The tab asked for, with the former name of `quick-start` still understood. */
  function RequestedTab(view: View, query: seq<Entry>): string {
    var raw := Get(query, "tab");
    var requested := if view == Runs && raw == Some("launch-evaluation") then Some("quick-start") else raw;
    if requested.Some? && requested.value in Tabs(view) then requested.value else DefaultTab(view)
  }

  function RequestedIds(query: seq<Entry>): Ids {
    Ids(Get(query, "dataset"), Get(query, "endpoint"), Get(query, "run"))
  }

  function RouteOfView(view: View, pathname: string, search: string, codec: Codec): Route {
    var query := Parse(NormalizedSearch(search), codec);
    var tab := RequestedTab(view, query);
    var canonical := Search(view, tab, RequestedIds(query), codec);
    Route(view, tab, Path(view), canonical, pathname != Path(view) || NormalizedSearch(search) != canonical)
  }

  function FindView(views: seq<View>, normalized: string): Option<View> {
    if views == [] then None
    else if normalized == Path(views[0]) then Some(views[0])
    else FindView(views[1..], normalized)
  }

  function RouteOf(pathname: string, search: string, codec: Codec): Route {
    var found := FindView(VIEWS, Normalized(pathname));
    if found.Some? then RouteOfView(found.value, pathname, search, codec)
    else Route(Dashboard, DefaultTab(Dashboard), Path(Dashboard), "", true)
  }

  function Permitted(view: View, tab: string, ids: Ids): Ids {
    Ids(if view == Runs && tab == "dataset-evaluation" && ValidId(ids.dataset) then ids.dataset else None,
        if view == Models && tab == "sandbox" && ValidId(ids.endpoint) then ids.endpoint else None,
        if view == Runs && tab == "run-details" && ValidId(ids.run) then ids.run else None)
  }

  lemma PermittedSuffice(view: View, tab: string, ids: Ids)
    ensures Query(view, tab, Permitted(view, tab, ids)) == Query(view, tab, ids)
  {
  }

  /** `workspaceRoute`. */
  method WorkspaceRoute(pathname: string, search: string, codec: Codec) returns (route: Route)
    ensures route == RouteOf(pathname, search, codec)
  {
    var normalized := Normalized(pathname);
    for i := 0 to |VIEWS|
      invariant FindView(VIEWS, normalized) == FindView(VIEWS[i..], normalized)
    {
      var view := VIEWS[i];
      if normalized == Path(view) {
        var normalizedSearch := NormalizedSearch(search);
        var params := new UrlSearchParams(normalizedSearch, codec);
        var tab := RequestedTab(view, params.entries);
        var ids := RequestedIds(params.entries);
        PermittedSuffice(view, tab, ids);
        var path := WorkspacePath(view, tab, Permitted(view, tab, ids), codec);
        var canonical := path[|Path(view)|..];
        return Route(view, tab, Path(view), canonical, pathname != Path(view) || normalizedSearch != canonical);
      }
    }
    route := Route(Dashboard, DefaultTab(Dashboard), Path(Dashboard), "", true);
  }

  // ---------- Parsing what was serialised ----------

  lemma {:induction false} BreakAt(before: string, c: char, after: string)
    requires c !in before
    ensures Break(before + ([c] + after), c) == (before, Some(after))
    ensures Break(before, c) == (before, None)
  {
    var s := before + ([c] + after);
    if before == [] {
      assert s == [c] + after && s[1..] == after;
    } else {
      assert s[1..] == before[1..] + ([c] + after);
      BreakAt(before[1..], c, after);
      assert before == [before[0]] + before[1..];
    }
  }

  ghost predicate SafeEntry(entry: Entry) {
    Safe(entry.name) && Safe(entry.value)
  }

  lemma EntryRoundTrip(entry: Entry, codec: Codec)
    requires Faithful(codec) && SafeEntry(entry)
    ensures ParseEntry(SerializeEntry(entry, codec), codec) == entry
    ensures SerializeEntry(entry, codec) != [] && '&' !in SerializeEntry(entry, codec)
  {
    BreakAt(entry.name, '=', entry.value);
  }

  /** Parsing undoes serialising for entries that need no encoding. */
  lemma {:induction false} ParseSerialize(entries: seq<Entry>, codec: Codec)
    requires Faithful(codec) && forall i :: 0 <= i < |entries| ==> SafeEntry(entries[i])
    ensures ParseList(Serialize(entries, codec), codec) == entries
  {
    if entries != [] {
      var first, rest := SerializeEntry(entries[0], codec), entries[1..];
      EntryRoundTrip(entries[0], codec);
      assert entries == [entries[0]] + rest;
      if rest == [] {
        BreakAt(first, '&', []);
      } else {
        ParseSerialize(rest, codec);
        BreakAt(first, '&', Serialize(rest, codec));
      }
    }
  }

  lemma ShortTabsAreSafe()
    ensures Safe("summary") && Safe("evaluations") && Safe("readiness")
    ensures Safe("sandbox") && Safe("rankings") && Safe("health") && Safe("preferences")
  {
  }

  lemma ModelTabsAreSafe()
    ensures Safe("model-inventory") && Safe("add-endpoint")
    ensures Safe("dataset-inventory") && Safe("register-dataset")
  {
  }

  lemma PromptTabsAreSafe()
    ensures Safe("prompt-inventory") && Safe("new-prompt-package")
    ensures Safe("evidence-matrix") && Safe("compare-runs")
  {
  }

  lemma RunTabsAreSafe()
    ensures Safe("run-inventory") && Safe("quick-start") && Safe("dataset-evaluation") && Safe("run-details")
  {
  }

  lemma {:induction false} TabsAreSafe(view: View, tab: string)
    requires tab in Tabs(view)
    ensures Safe(tab)
  {
    ShortTabsAreSafe();
    ModelTabsAreSafe();
    PromptTabsAreSafe();
    RunTabsAreSafe();
  }

  lemma NotLegacy(tab: string)
    requires tab in Tabs(Runs)
    ensures tab != "launch-evaluation"
  {
    assert |"launch-evaluation"| == 17 && |"run-inventory"| == 13 && |"quick-start"| == 11;
    assert |"dataset-evaluation"| == 18 && |"run-details"| == 11;
  }

  lemma QueryIsSafe(view: View, tab: string, ids: Ids)
    requires Safe(tab)
    ensures forall i :: 0 <= i < |Query(view, tab, ids)| ==> SafeEntry(Query(view, tab, ids)[i])
  {
  }

  lemma SearchRoundTrip(view: View, tab: string, ids: Ids, codec: Codec)
    requires Faithful(codec) && tab in Tabs(view)
    ensures NormalizedSearch(Search(view, tab, ids, codec)) == Search(view, tab, ids, codec)
    ensures Parse(Search(view, tab, ids, codec), codec) == Query(view, tab, ids)
  {
    var query := Query(view, tab, ids);
    TabsAreSafe(view, tab);
    QueryIsSafe(view, tab, ids);
    ParseSerialize(query, codec);
    if query != [] {
      assert ("?" + Serialize(query, codec))[1..] == Serialize(query, codec);
    }
  }

  lemma QueryKeepsTab(view: View, tab: string, ids: Ids)
    requires tab in Tabs(view)
    ensures RequestedTab(view, Query(view, tab, ids)) == tab
  {
    if view == Runs {
      NotLegacy(tab);
    }
  }

  lemma GetBehindTab(view: View, tab: string, ids: Ids, name: string)
    requires name != "tab"
    ensures Get(Query(view, tab, ids), name) == Get(IdQuery(view, tab, ids), name)
  {
    if tab != DefaultTab(view) {
      assert Query(view, tab, ids)[1..] == IdQuery(view, tab, ids);
    }
  }

  lemma QueryIds(view: View, tab: string, ids: Ids)
    ensures RequestedIds(Query(view, tab, ids)) == Permitted(view, tab, ids)
  {
    GetBehindTab(view, tab, ids, "dataset");
    GetBehindTab(view, tab, ids, "endpoint");
    GetBehindTab(view, tab, ids, "run");
    assert IdQuery(view, tab, ids) != [] ==> IdQuery(view, tab, ids)[1..] == [];
  }

  lemma QueryKeepsIds(view: View, tab: string, ids: Ids)
    ensures Query(view, tab, RequestedIds(Query(view, tab, ids))) == Query(view, tab, ids)
  {
    QueryIds(view, tab, ids);
    PermittedSuffice(view, tab, ids);
  }

  // ---------- Paths ----------

  lemma PathsDiffer(view: View, other: View)
    ensures Path(view) == Path(other) <==> view == other
  {
    assert |Path(Dashboard)| == 10 && |Path(Guide)| == 6 && |Path(Models)| == 7 && |Path(Datasets)| == 9;
    assert |Path(Prompts)| == 8 && |Path(Runs)| == 5 && |Path(Leaderboard)| == 12 && |Path(Analysis)| == 9;
    assert |Path(Settings)| == 9;
    assert Path(Datasets)[1] == 'd' && Path(Analysis)[1] == 'a' && Path(Settings)[1] == 's';
  }

  lemma {:induction false} FindsIt(views: seq<View>, view: View)
    ensures FindView(views, Path(view)) == if view in views then Some(view) else None
  {
    if views != [] {
      FindsIt(views[1..], view);
      PathsDiffer(view, views[0]);
      assert views == [views[0]] + views[1..];
    }
  }

  lemma {:induction false} FoundHasPath(views: seq<View>, normalized: string)
    ensures FindView(views, normalized).Some? ==> Path(FindView(views, normalized).value) == normalized
  {
    if views != [] {
      FoundHasPath(views[1..], normalized);
    }
  }

  lemma AllViews(view: View)
    ensures view in VIEWS
  {
    assert VIEWS[0] == Dashboard && VIEWS[1] == Guide && VIEWS[2] == Models && VIEWS[3] == Datasets;
    assert VIEWS[4] == Prompts && VIEWS[5] == Runs && VIEWS[6] == Leaderboard && VIEWS[7] == Analysis;
    assert VIEWS[8] == Settings;
  }

  lemma {:induction false} TrimAll(view: View, slashes: string)
    requires forall i :: 0 <= i < |slashes| ==> slashes[i] == '/'
    ensures TrimSlashes(Path(view) + slashes) == Path(view)
  {
    var pathname := Path(view) + slashes;
    if slashes == [] {
      assert pathname == Path(view);
      assert Path(view)[|Path(view)| - 1] != '/';
    } else {
      TrimAll(view, slashes[..|slashes| - 1]);
      assert pathname[..|pathname| - 1] == Path(view) + slashes[..|slashes| - 1];
      assert pathname[|pathname| - 1] == slashes[|slashes| - 1];
    }
  }

  lemma {:induction false} RoutesToView(view: View, slashes: string, search: string, codec: Codec)
    requires forall i :: 0 <= i < |slashes| ==> slashes[i] == '/'
    ensures RouteOf(Path(view) + slashes, search, codec) == RouteOfView(view, Path(view) + slashes, search, codec)
  {
    TrimAll(view, slashes);
    FindsIt(VIEWS, view);
    AllViews(view);
    assert |Path(view)| > 1;
  }

  /** The view routed to is the one whose path the trimmed pathname is; otherwise the dashboard. */
  lemma RoutedViewIsTheMatch(pathname: string, search: string, codec: Codec, view: View)
    ensures var route := RouteOf(pathname, search, codec);
      && (Path(view) == Normalized(pathname) ==> route.view == view)
      && (Path(route.view) != Normalized(pathname) ==>
            route == Route(Dashboard, DefaultTab(Dashboard), Path(Dashboard), "", true))
  {
    FindsIt(VIEWS, view);
    AllViews(view);
    FoundHasPath(VIEWS, Normalized(pathname));
  }

  // ---------- Round trips ----------

  /** A printed path routes back to its view and tab, and is left as it is. */
  lemma {:induction false} PrintedPathRoutesBack(view: View, tab: string, ids: Ids, codec: Codec)
    requires Faithful(codec) && tab in Tabs(view)
    ensures var search := Search(view, tab, ids, codec);
      RouteOf(Path(view), search, codec) == Route(view, tab, Path(view), search, false)
  {
    RoutesToView(view, [], Search(view, tab, ids, codec), codec);
    assert Path(view) + [] == Path(view);
    SearchRoundTrip(view, tab, ids, codec);
    QueryKeepsTab(view, tab, ids);
    QueryKeepsIds(view, tab, ids);
  }

  /** The ids read from a printed path are the valid ids printed for that view and tab. */
  lemma PrintedIdsAreRead(view: View, tab: string, ids: Ids, codec: Codec)
    requires Faithful(codec) && tab in Tabs(view)
    ensures RequestedIds(Parse(Search(view, tab, ids, codec), codec)) == Permitted(view, tab, ids)
  {
    SearchRoundTrip(view, tab, ids, codec);
    QueryIds(view, tab, ids);
  }

  lemma RoutedTabIsKnown(view: View, query: seq<Entry>)
    ensures RequestedTab(view, query) in Tabs(view)
  {
    assert Tabs(view)[0] in Tabs(view);
  }

  /** What a route's path and query are: a printed path of its view and tab. */
  lemma {:induction false} RouteIsPrinted(pathname: string, search: string, codec: Codec) returns (ids: Ids)
    ensures var route := RouteOf(pathname, search, codec);
      && route.tab in Tabs(route.view) && route.pathname == Path(route.view)
      && route.search == Search(route.view, route.tab, ids, codec)
  {
    var found := FindView(VIEWS, Normalized(pathname));
    ids := Ids(None, None, None);
    if found.Some? {
      var query := Parse(NormalizedSearch(search), codec);
      RoutedTabIsKnown(found.value, query);
      ids := RequestedIds(query);
    } else {
      assert Tabs(Dashboard)[0] in Tabs(Dashboard);
    }
  }

  /** Routing settles after one step, for every path and query. */
  lemma {:induction false} RoutingIsIdempotent(pathname: string, search: string, codec: Codec)
    requires Faithful(codec)
    ensures var route := RouteOf(pathname, search, codec);
      RouteOf(route.pathname, route.search, codec) == route.(replacing := false)
  {
    var route := RouteOf(pathname, search, codec);
    var ids := RouteIsPrinted(pathname, search, codec);
    PrintedPathRoutesBack(route.view, route.tab, ids, codec);
  }

  ghost predicate Printed(pathname: string, search: string, codec: Codec, view: View, tab: string, ids: Ids) {
    tab in Tabs(view) && pathname == Path(view) && search == Search(view, tab, ids, codec)
  }

  /** A location is replaced exactly when it is not a printed path. */
  lemma {:induction false} ReplacedUnlessPrinted(pathname: string, search: string, codec: Codec)
    requires Faithful(codec)
    ensures !RouteOf(pathname, search, codec).replacing
       <==> exists view, tab, ids :: Printed(pathname, NormalizedSearch(search), codec, view, tab, ids)
  {
    var route := RouteOf(pathname, search, codec);
    if !route.replacing {
      var ids := RouteIsPrinted(pathname, search, codec);
      assert Printed(pathname, NormalizedSearch(search), codec, route.view, route.tab, ids);
    }
    forall view, tab, ids | Printed(pathname, NormalizedSearch(search), codec, view, tab, ids)
      ensures !route.replacing
    {
      PrintedPathRoutesBack(view, tab, ids, codec);
      RoutesToView(view, [], search, codec);
      assert Path(view) + [] == Path(view);
      RoutesToView(view, [], NormalizedSearch(search), codec);
      assert NormalizedSearch(NormalizedSearch(search)) == NormalizedSearch(search);
    }
  }

  /** Trailing slashes only cause a replacement. */
  lemma {:induction false} TrailingSlashesAreDropped(view: View, slashes: string, search: string, codec: Codec)
    requires slashes != [] && forall i :: 0 <= i < |slashes| ==> slashes[i] == '/'
    ensures RouteOf(Path(view) + slashes, search, codec) == RouteOf(Path(view), search, codec).(replacing := true)
  {
    RoutesToView(view, slashes, search, codec);
    RoutesToView(view, [], search, codec);
    assert Path(view) + [] == Path(view);
    assert |Path(view) + slashes| > |Path(view)|;
  }

  /** The former tab name leads to `quick-start`, under its new name. */
  lemma {:induction false} LegacyTabIsRenamed(search: string, codec: Codec)
    requires Faithful(codec) && Get(Parse(NormalizedSearch(search), codec), "tab") == Some("launch-evaluation")
    ensures var route := RouteOf(Path(Runs), search, codec);
      route.view == Runs && route.tab == "quick-start" && route.replacing
      && route.search == Search(Runs, "quick-start", Ids(None, None, None), codec)
  {
    RoutesToView(Runs, [], search, codec);
    assert Path(Runs) + [] == Path(Runs);
    assert Tabs(Runs)[1] == "quick-start";
    SearchRoundTrip(Runs, "quick-start", Ids(None, None, None), codec);
  }

  // ---------- Reading any query ----------

  /** The first entry of the name counts, whatever follows. */
  lemma {:induction false} GetIsFirst(entries: seq<Entry>, name: string, value: string)
    ensures Get(entries, name) == Some(value)
       <==> exists i :: && 0 <= i < |entries| && entries[i] == Entry(name, value)
                        && forall j :: 0 <= j < i ==> entries[j].name != name
  {
    if entries != [] {
      var rest := entries[1..];
      GetIsFirst(rest, name, value);
      if i :| 0 <= i < |rest| && rest[i] == Entry(name, value) && (forall j :: 0 <= j < i ==> rest[j].name != name) {
        assert entries[i + 1] == rest[i];
        assert entries[0].name != name ==> forall j :: 0 <= j < i + 1 ==> j == 0 || entries[j] == rest[j - 1];
      }
      if i :| 0 <= i < |entries| && entries[i] == Entry(name, value) && (forall j :: 0 <= j < i ==> entries[j].name != name) {
        assert i > 0 ==> rest[i - 1] == entries[i] && forall j :: 0 <= j < i - 1 ==> rest[j] == entries[j + 1];
      }
    }
  }

  /** An ampersand ends a part; an empty part is skipped, and one without `=` has an empty value. */
  lemma PartsAreRead(name: string, value: string, rest: string, codec: Codec)
    requires '&' !in name && '&' !in value && '=' !in name
    ensures ParseList("&" + rest, codec) == ParseList(rest, codec)
    ensures ParseList((name + ("=" + value)) + ("&" + rest), codec)
         == [Entry(codec.decode(name), codec.decode(value))] + ParseList(rest, codec)
    ensures name != [] ==>
      ParseList(name + ("&" + rest), codec) == [Entry(codec.decode(name), codec.decode(""))] + ParseList(rest, codec)
  {
    BreakAt([], '&', rest);
    assert [] + ("&" + rest) == "&" + rest;
    BreakAt(name + ("=" + value), '&', rest);
    BreakAt(name, '=', value);
    BreakAt(name, '&', rest);
  }

  /** Setting a name gives it one entry with that value and leaves every other name as it was. */
  lemma {:induction false} PutThenGet(entries: seq<Entry>, name: string, value: string, other: string)
    ensures Get(Put(entries, name, value), other) == if other == name then Some(value) else Get(entries, other)
    ensures Get(Without(entries, name), other) == if other == name then None else Get(entries, other)
  {
    if entries != [] {
      PutThenGet(entries[1..], name, value, other);
      assert [] + Without(entries[1..], name) == Without(entries[1..], name);
      assert ([Entry(name, value)] + Without(entries[1..], name))[1..] == Without(entries[1..], name);
      assert ([entries[0]] + Without(entries[1..], name))[1..] == Without(entries[1..], name);
      assert ([entries[0]] + Put(entries[1..], name, value))[1..] == Put(entries[1..], name, value);
    }
  }

  // ---------- What is printed and which tab is routed to ----------

  /** The id that is printed with a tab: its parameter and value. */
  ghost predicate PrintsId(view: View, tab: string, ids: Ids, name: string, id: string) {
    && 1 <= |id| <= 200 && Safe(id)
    && (|| (view == Runs && tab == "dataset-evaluation" && name == "dataset" && ids.dataset == Some(id))
        || (view == Runs && tab == "run-details" && name == "run" && ids.run == Some(id))
        || (view == Models && tab == "sandbox" && name == "endpoint" && ids.endpoint == Some(id)))
  }

  lemma PrintsIdQuery(view: View, tab: string, ids: Ids, name: string, id: string)
    ensures PrintsId(view, tab, ids, name, id) <==> IdQuery(view, tab, ids) == [Entry(name, id)]
    ensures IdQuery(view, tab, ids) != [] ==> |IdQuery(view, tab, ids)| == 1
  {
  }

  lemma FirstTabsPrintNoId(view: View, ids: Ids)
    ensures IdQuery(view, Tabs(view)[0], ids) == []
  {
  }

  /** The default tab is not printed, and with it no id. */
  lemma DefaultTabIsBare(view: View, tab: string, ids: Ids, codec: Codec)
    ensures tab == Tabs(view)[0] ==> Search(view, tab, ids, codec) == ""
  {
    FirstTabsPrintNoId(view, ids);
  }

  lemma SerializedPair(first: Entry, second: Entry, codec: Codec)
    requires Faithful(codec) && SafeEntry(first) && SafeEntry(second)
    ensures Serialize([first], codec) == first.name + ("=" + first.value)
    ensures Serialize([first, second], codec)
         == (first.name + ("=" + first.value)) + ("&" + (second.name + ("=" + second.value)))
  {
    assert [first, second][1..] == [second];
  }

  lemma TabAndIdPrinted(view: View, tab: string, ids: Ids, codec: Codec, first: Entry, second: Entry)
    requires Faithful(codec) && Query(view, tab, ids) == [first, second] && SafeEntry(first) && SafeEntry(second)
    ensures Search(view, tab, ids, codec)
         == "?" + ((first.name + ("=" + first.value)) + ("&" + (second.name + ("=" + second.value))))
  {
    SerializedPair(first, second, codec);
  }

  lemma TabAlonePrinted(view: View, tab: string, ids: Ids, codec: Codec)
    requires Faithful(codec) && Safe(tab) && tab != DefaultTab(view) && IdQuery(view, tab, ids) == []
    ensures Search(view, tab, ids, codec) == "?" + ("tab" + ("=" + tab))
  {
    assert Query(view, tab, ids) == [Entry("tab", tab)];
    SerializedPair(Entry("tab", tab), Entry("tab", tab), codec);
  }

  lemma NoIdQuery(view: View, tab: string, ids: Ids)
    requires forall name, id :: !PrintsId(view, tab, ids, name, id)
    ensures IdQuery(view, tab, ids) == []
  {
    var query := IdQuery(view, tab, ids);
    if query != [] {
      PrintsIdQuery(view, tab, ids, query[0].name, query[0].value);
    }
  }

  /** Any other tab is printed, followed by the valid id that belongs to it, if there is one. */
  lemma OtherTabsArePrinted(view: View, tab: string, ids: Ids, codec: Codec)
    requires Faithful(codec) && tab in Tabs(view) && tab != DefaultTab(view)
    ensures forall name, id :: PrintsId(view, tab, ids, name, id) ==>
              Search(view, tab, ids, codec) == "?" + (("tab" + ("=" + tab)) + ("&" + (name + ("=" + id))))
    ensures (forall name, id :: !PrintsId(view, tab, ids, name, id)) ==>
              Search(view, tab, ids, codec) == "?" + ("tab" + ("=" + tab))
  {
    TabsAreSafe(view, tab);
    QueryIsSafe(view, tab, ids);
    forall name, id | PrintsId(view, tab, ids, name, id)
      ensures Search(view, tab, ids, codec) == "?" + (("tab" + ("=" + tab)) + ("&" + (name + ("=" + id))))
    {
      PrintsIdQuery(view, tab, ids, name, id);
      var query := Query(view, tab, ids);
      assert query == [Entry("tab", tab), Entry(name, id)];
      assert SafeEntry(query[0]) && SafeEntry(query[1]);
      TabAndIdPrinted(view, tab, ids, codec, query[0], query[1]);
    }
    if forall name, id :: !PrintsId(view, tab, ids, name, id) {
      NoIdQuery(view, tab, ids);
      TabAlonePrinted(view, tab, ids, codec);
    }
  }

  /** The tab asked for is routed to if the view has it; a missing or unknown one leads to the first. */
  lemma {:induction false} RoutedTab(view: View, search: string, codec: Codec)
    ensures var asked, tab := Get(Parse(NormalizedSearch(search), codec), "tab"), RouteOf(Path(view), search, codec).tab;
      && (forall t :: t in Tabs(view) && asked == Some(t) ==> tab == t)
      && ((forall t :: t in Tabs(view) ==> asked != Some(t)) && !(view == Runs && asked == Some("launch-evaluation")) ==>
            tab == Tabs(view)[0])
  {
    RoutesToView(view, [], search, codec);
    assert Path(view) + [] == Path(view);
    if view == Runs && Get(Parse(NormalizedSearch(search), codec), "tab") == Some("launch-evaluation") {
      assert "launch-evaluation" in Tabs(Runs) ==> false by {
        if "launch-evaluation" in Tabs(Runs) {
          NotLegacy("launch-evaluation");
        }
      }
    }
  }

  /** A query without its question mark is routed like the one that has it. */
  lemma MissingMarkIsAdded(pathname: string, search: string, codec: Codec)
    requires search != [] && search[0] != '?'
    ensures RouteOf(pathname, search, codec) == RouteOf(pathname, "?" + search, codec)
  {
  }
}
