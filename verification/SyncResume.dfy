// Resumable synchronisation: which configured documents one run selects, and where the next resumes.
module SyncResume {
  import opened Prelude

  datatype ConfiguredDocument = ConfiguredDocument(sourceKey: string, stableKey: string, title: string, url: string,
                                                   language: string, mimeType: string, enabled: bool)

  datatype Cursor = Cursor(sourceKey: string, stableKey: string)

  datatype PlanError =
    | SourceNotFound
    | FingerprintWithoutCursor
    | FingerprintRequired
    | FingerprintInvalid
    | ConfigurationChanged
    | CursorNotFound

  datatype Result<+T> = Ok(value: T) | Err(error: PlanError)

  datatype Plan = Plan(selected: seq<ConfiguredDocument>, cursor: Option<Cursor>, fingerprint: string, limited: bool)

  datatype Options = Options(sourceKey: Option<string>, documents: seq<ConfiguredDocument>, limit: Option<nat>,
                             resumeAfter: Option<Cursor>, resumeFingerprint: Option<string>)

  // The digest of the configuration (documents, and which sources exist and are enabled), and its format.
  datatype Configuration = Configuration(sources: set<string>, fingerprint: seq<ConfiguredDocument> -> string,
                                         wellFormed: string -> bool)

  function CursorOf(d: ConfiguredDocument): Cursor {
    Cursor(d.sourceKey, d.stableKey)
  }

  predicate Wanted(options: Options, d: ConfiguredDocument) {
    d.enabled && (options.sourceKey.None? || d.sourceKey == options.sourceKey.value)
  }

  function Filtered(options: Options, documents: seq<ConfiguredDocument>): seq<ConfiguredDocument> {
    if documents == [] then []
    else (if Wanted(options, documents[0]) then [documents[0]] else []) + Filtered(options, documents[1..])
  }

  // The documents a run of these options is about.
  function Configured(options: Options): seq<ConfiguredDocument> {
    Filtered(options, options.documents)
  }

  // The documents at these places, in order, and no others, are enabled and of the source asked for.
  predicate EnabledPlaces(options: Options, documents: seq<ConfiguredDocument>, places: seq<nat>) {
    && (forall k, l :: 0 <= k < l < |places| ==> places[k] < places[l])
    && (forall k :: 0 <= k < |places| ==> places[k] < |documents|)
    && forall i: nat :: i < |documents| ==>
         (i in places <==> documents[i].enabled
                           && (options.sourceKey == None || options.sourceKey == Some(documents[i].sourceKey)))
  }

  predicate AtPlaces(documents: seq<ConfiguredDocument>, places: seq<nat>, chosen: seq<ConfiguredDocument>) {
    && |chosen| == |places|
    && forall k :: 0 <= k < |places| ==> places[k] < |documents| && chosen[k] == documents[places[k]]
  }

  // A run is about exactly the enabled documents of the source asked for, in the order configured.
  lemma {:induction false} ConfiguredAreEnabled(options: Options, documents: seq<ConfiguredDocument>) returns (places: seq<nat>)
    ensures EnabledPlaces(options, documents, places) && AtPlaces(documents, places, Filtered(options, documents))
  {
    if documents == [] {
      places := [];
    } else {
      hide EnabledPlaces, AtPlaces;
      var later := ConfiguredAreEnabled(options, documents[1..]);
      var shifted := Shifted(later);
      places := if Wanted(options, documents[0]) then [0] + shifted else shifted;
      PlacesFromFirst(options, documents, later, places);
      ChosenFromFirst(options, documents, later, Filtered(options, documents[1..]), places);
    }
  }

  function Shifted(places: seq<nat>): (shifted: seq<nat>)
    ensures |shifted| == |places| && forall k :: 0 <= k < |places| ==> shifted[k] == places[k] + 1
  {
    seq(|places|, k requires 0 <= k < |places| => places[k] + 1)
  }

  lemma PlacesFromFirst(options: Options, documents: seq<ConfiguredDocument>, later: seq<nat>, places: seq<nat>)
    requires documents != [] && EnabledPlaces(options, documents[1..], later)
    requires places == if Wanted(options, documents[0]) then [0] + Shifted(later) else Shifted(later)
    ensures EnabledPlaces(options, documents, places)
  {
    var shifted := Shifted(later);
    forall i: nat | i < |documents|
      ensures i in places <==> documents[i].enabled
                               && (options.sourceKey == None || options.sourceKey == Some(documents[i].sourceKey))
    {
      assert i in places <==> i in shifted || (i == 0 && Wanted(options, documents[0]));
      if i > 0 {
        assert documents[1..][i - 1] == documents[i];
        ShiftedPlace(later, shifted, i);
      }
    }
  }

  lemma ChosenFromFirst(options: Options, documents: seq<ConfiguredDocument>, later: seq<nat>, rest: seq<ConfiguredDocument>, places: seq<nat>)
    requires documents != [] && AtPlaces(documents[1..], later, rest)
    requires places == if Wanted(options, documents[0]) then [0] + Shifted(later) else Shifted(later)
    ensures AtPlaces(documents, places, (if Wanted(options, documents[0]) then [documents[0]] else []) + rest)
  {
  }

  lemma ShiftedPlace(later: seq<nat>, shifted: seq<nat>, i: nat)
    requires i > 0 && |shifted| == |later| && forall k :: 0 <= k < |later| ==> shifted[k] == later[k] + 1
    ensures i in shifted <==> i - 1 in later
  {
    if i - 1 in later {
      var k :| 0 <= k < |later| && later[k] == i - 1;
      assert shifted[k] == i;
    }
  }

  // The first document with the cursor's key.
  function FindIndex(documents: seq<ConfiguredDocument>, cursor: Cursor): (index: Option<nat>)
    ensures index.Some? ==>
              && index.value < |documents| && CursorOf(documents[index.value]) == cursor
              && forall j :: 0 <= j < index.value ==> CursorOf(documents[j]) != cursor
    ensures index.None? ==> forall j :: 0 <= j < |documents| ==> CursorOf(documents[j]) != cursor
  {
    if documents == [] then None
    else if CursorOf(documents[0]) == cursor then Some(0)
    else
      var rest := FindIndex(documents[1..], cursor);
      if rest.None? then None else Some(rest.value + 1)
  }

  function FingerprintError(options: Options, fingerprint: string, configuration: Configuration): Option<PlanError> {
    match options.resumeAfter
    case None => if options.resumeFingerprint.Some? then Some(FingerprintWithoutCursor) else None
    case Some(_) =>
      match options.resumeFingerprint
      case None => Some(FingerprintRequired)
      case Some(provided) =>
        if !configuration.wellFormed(provided) then Some(FingerprintInvalid)
        else if provided != fingerprint then Some(ConfigurationChanged)
        else None
  }

  function Resumed(documents: seq<ConfiguredDocument>, cursor: Option<Cursor>): Result<seq<ConfiguredDocument>> {
    if cursor.None? then Ok(documents)
    else
      var index := FindIndex(documents, cursor.value);
      if index.None? then Err(CursorNotFound) else Ok(documents[index.value + 1..])
  }

  function Limited(documents: seq<ConfiguredDocument>, limit: Option<nat>): seq<ConfiguredDocument> {
    if limit.None? || limit.value >= |documents| then documents else documents[..limit.value]
  }

  datatype Page = Page(selected: seq<ConfiguredDocument>, cursor: Option<Cursor>, limited: bool)

  // What one run takes of the documents, and the cursor it leaves.
  function NextPage(documents: seq<ConfiguredDocument>, cursor: Option<Cursor>, limit: Option<nat>): Result<Page> {
    match Resumed(documents, cursor)
    case Err(e) => Err(e)
    case Ok(resumed) =>
      var selected := Limited(resumed, limit);
      var limited := limit.Some? && |resumed| > |selected|;
      var next := if !limited then cursor else if selected == [] then None else Some(CursorOf(selected[|selected| - 1]));
      Ok(Page(selected, next, limited))
  }

  function CreateExecutionPlan(options: Options, configuration: Configuration): Result<Plan> {
    if options.sourceKey.Some? && options.sourceKey.value !in configuration.sources then Err(SourceNotFound)
    else
      var documents := Configured(options);
      var fingerprint := configuration.fingerprint(documents);
      var error := FingerprintError(options, fingerprint, configuration);
      if error.Some? then Err(error.value)
      else
        match NextPage(documents, options.resumeAfter, options.limit)
        case Err(e) => Err(e)
        case Ok(page) => Ok(Plan(page.selected, page.cursor, fingerprint, page.limited))
  }

  predicate NamedBy(d: ConfiguredDocument, cursor: Cursor) {
    d.sourceKey == cursor.sourceKey && d.stableKey == cursor.stableKey
  }

  // Where a run begins: with the first enabled document, or after the first one the cursor names.
  predicate BeginsAt(options: Options, places: seq<nat>, from: nat) {
    && from <= |places| && (forall k :: 0 <= k < |places| ==> places[k] < |options.documents|)
    && match options.resumeAfter
       case None => from == 0
       case Some(cursor) =>
         && from > 0 && NamedBy(options.documents[places[from - 1]], cursor)
         && forall k :: 0 <= k < from - 1 ==> !NamedBy(options.documents[places[k]], cursor)
  }

  function Least(a: nat, b: nat): nat {
    if a < b then a else b
  }

  predicate Chosen(options: Options, places: seq<nat>, from: nat, plan: Plan) {
    && BeginsAt(options, places, from)
    && var count := if options.limit.Some? then Least(options.limit.value, |places| - from) else |places| - from;
       && AtPlaces(options.documents, places[from..from + count], plan.selected)
       && (plan.limited <==> count < |places| - from)
  }

  // A plan selects, in the order configured, the next enabled documents of the source asked for, as
  // many as the limit allows.
  lemma PlansSelectEnabled(options: Options, configuration: Configuration)
    ensures var plan := CreateExecutionPlan(options, configuration);
            plan.Ok? ==> exists places, from :: EnabledPlaces(options, options.documents, places) && Chosen(options, places, from, plan.value)
  {
    hide EnabledPlaces, Wanted;
    var plan := CreateExecutionPlan(options, configuration);
    if plan.Ok? {
      var places := ConfiguredAreEnabled(options, options.documents);
      var documents := Configured(options);
      var from := if options.resumeAfter.None? then 0 else FindIndex(documents, options.resumeAfter.value).value + 1;
      SelectedFrom(options, places, from, plan.value);
    }
  }

  lemma SelectedFrom(options: Options, places: seq<nat>, from: nat, plan: Plan)
    requires AtPlaces(options.documents, places, Configured(options)) && from <= |places|
    requires match options.resumeAfter
             case None => from == 0
             case Some(cursor) => from > 0 && FindIndex(Configured(options), cursor) == Some(from - 1)
    requires var resumed := Configured(options)[from..];
             plan.selected == Limited(resumed, options.limit) && (plan.limited <==> options.limit.Some? && |resumed| > |plan.selected|)
    ensures Chosen(options, places, from, plan)
  {
    hide Configured;
    var documents := Configured(options);
    forall k | 0 <= k < |places|
      ensures options.documents[places[k]] == documents[k]
    {
    }
  }

  /*** Feeding the cursor back ***/

  datatype Progress = Progress(selected: seq<ConfiguredDocument>, finished: bool)

  // The options of the run that resumes after a plan, with another limit.
  function Resuming(options: Options, plan: Plan, limit: nat): Options {
    options.(resumeAfter := plan.cursor, resumeFingerprint := Some(plan.fingerprint), limit := Some(limit))
  }

  // One run, then one more for each further limit, each resuming where the last stopped, until a
  // run is not limited.
  function Feed(options: Options, configuration: Configuration, limits: seq<nat>): Result<Progress>
    decreases |limits|
  {
    match CreateExecutionPlan(options, configuration)
    case Err(e) => Err(e)
    case Ok(plan) =>
      if !plan.limited || limits == [] then Ok(Progress(plan.selected, !plan.limited))
      else
        match Feed(Resuming(options, plan, limits[0]), configuration, limits[1..])
        case Err(e) => Err(e)
        case Ok(rest) => Ok(Progress(plan.selected + rest.selected, rest.finished))
  }

  // The same on the list of configured documents alone.
  function FeedList(documents: seq<ConfiguredDocument>, cursor: Option<Cursor>, limit: nat, limits: seq<nat>): Result<Progress>
    decreases |limits|
  {
    match NextPage(documents, cursor, Some(limit))
    case Err(e) => Err(e)
    case Ok(page) =>
      if !page.limited || limits == [] then Ok(Progress(page.selected, !page.limited))
      else
        match FeedList(documents, page.cursor, limits[0], limits[1..])
        case Err(e) => Err(e)
        case Ok(rest) => Ok(Progress(page.selected + rest.selected, rest.finished))
  }

  predicate Positive(limits: seq<nat>) {
    forall i :: 0 <= i < |limits| ==> limits[i] >= 1
  }

  // No document but the last repeats an earlier key.
  predicate Resumable(documents: seq<ConfiguredDocument>) {
    forall i, j :: 0 <= i < j < |documents| - 1 ==> CursorOf(documents[i]) != CursorOf(documents[j])
  }

  // The runs select documents in order and once each, and finish within one run a document.
  ghost predicate CoversExactly(r: Result<Progress>, documents: seq<ConfiguredDocument>, runs: nat) {
    && r.Ok? && r.value.selected <= documents
    && (r.value.finished ==> r.value.selected == documents)
    && (runs >= |documents| ==> r.value.finished)
  }

  // Options of a first run with a limit.
  predicate Fresh(options: Options, configuration: Configuration) {
    && options.resumeAfter.None? && options.resumeFingerprint.None? && options.limit.Some?
    && (options.sourceKey.Some? ==> options.sourceKey.value in configuration.sources)
    && configuration.wellFormed(configuration.fingerprint(Configured(options)))
  }

  lemma {:induction false} SameFilter(a: Options, b: Options, documents: seq<ConfiguredDocument>)
    requires a.sourceKey == b.sourceKey
    ensures Filtered(a, documents) == Filtered(b, documents)
  {
    if documents != [] {
      SameFilter(a, b, documents[1..]);
    }
  }

  // The fingerprint of an unchanged configuration is accepted, so feeding depends on the list alone.
  lemma {:induction false} FeedIsFeedList(options: Options, configuration: Configuration, limits: seq<nat>)
    requires options.limit.Some? && (options.sourceKey.Some? ==> options.sourceKey.value in configuration.sources)
    requires configuration.wellFormed(configuration.fingerprint(Configured(options)))
    requires FingerprintError(options, configuration.fingerprint(Configured(options)), configuration).None?
    requires options.limit.value >= 1 && Positive(limits)
    ensures Feed(options, configuration, limits) == FeedList(Configured(options), options.resumeAfter, options.limit.value, limits)
    decreases |limits|
  {
    hide Filtered, Resumed;
    var plan := CreateExecutionPlan(options, configuration);
    if plan.Ok? && plan.value.limited && limits != [] {
      var next := Resuming(options, plan.value, limits[0]);
      SameFilter(options, next, options.documents);
      LimitedLeavesCursor(Configured(options), options.resumeAfter, options.limit.value);
      FeedIsFeedList(next, configuration, limits[1..]);
    }
  }

  lemma LimitedLeavesCursor(documents: seq<ConfiguredDocument>, cursor: Option<Cursor>, limit: nat)
    requires limit >= 1
    ensures var page := NextPage(documents, cursor, Some(limit)); page.Ok? && page.value.limited ==> page.value.cursor.Some?
  {
  }

  // A cursor for position n: nothing at the start, the document before otherwise.
  predicate StandsAt(documents: seq<ConfiguredDocument>, cursor: Option<Cursor>, n: nat) {
    if n == 0 then cursor.None? else n < |documents| && cursor == Some(CursorOf(documents[n - 1]))
  }

  lemma PageFrom(documents: seq<ConfiguredDocument>, cursor: Option<Cursor>, n: nat, limit: nat)
    requires Resumable(documents) && StandsAt(documents, cursor, n) && limit >= 1
    ensures var page := NextPage(documents, cursor, Some(limit));
            && page.Ok? && (page.value.limited <==> n + limit < |documents|)
            && (page.value.limited ==> page.value.selected == documents[n..n + limit] && StandsAt(documents, page.value.cursor, n + limit))
            && (!page.value.limited ==> page.value.selected == documents[n..])
  {
    if n > 0 {
      var index := FindIndex(documents, cursor.value);
      assert index == Some(n - 1);
    }
  }

  lemma OneMorePage(documents: seq<ConfiguredDocument>, n: nat, m: nat, rest: Result<Progress>, runs: nat)
    requires n < m <= |documents| && CoversExactly(rest, documents[m..], runs)
    ensures rest.Ok? && CoversExactly(Ok(Progress(documents[n..m] + rest.value.selected, rest.value.finished)), documents[n..], runs + 1)
  {
    assert documents[n..] == documents[n..m] + documents[m..];
  }

  lemma FeedOneMore(documents: seq<ConfiguredDocument>, cursor: Option<Cursor>, n: nat, limit: nat, limits: seq<nat>, page: Page)
    requires NextPage(documents, cursor, Some(limit)) == Ok(page) && page.limited && limits != []
    requires n + limit < |documents| && limit >= 1 && page.selected == documents[n..n + limit]
    requires CoversExactly(FeedList(documents, page.cursor, limits[0], limits[1..]), documents[n + limit..], |limits|)
    ensures CoversExactly(FeedList(documents, cursor, limit, limits), documents[n..], |limits| + 1)
  {
    OneMorePage(documents, n, n + limit, FeedList(documents, page.cursor, limits[0], limits[1..]), |limits|);
    hide CoversExactly, NextPage;
  }

  lemma FeedLast(documents: seq<ConfiguredDocument>, cursor: Option<Cursor>, n: nat, limit: nat, limits: seq<nat>, page: Page)
    requires NextPage(documents, cursor, Some(limit)) == Ok(page) && (!page.limited || limits == []) && n <= |documents|
    requires !page.limited ==> page.selected == documents[n..]
    requires page.limited ==> n + limit < |documents| && limit >= 1 && page.selected == documents[n..n + limit]
    ensures CoversExactly(FeedList(documents, cursor, limit, limits), documents[n..], |limits| + 1)
  {
    assert FeedList(documents, cursor, limit, limits) == Ok(Progress(page.selected, !page.limited));
    if page.limited {
      assert documents[n..] == documents[n..n + limit] + documents[n + limit..];
    }
  }

  lemma {:induction false} FeedFrom(documents: seq<ConfiguredDocument>, cursor: Option<Cursor>, n: nat, limit: nat, limits: seq<nat>)
    requires Resumable(documents) && StandsAt(documents, cursor, n) && limit >= 1 && Positive(limits)
    ensures n <= |documents| && CoversExactly(FeedList(documents, cursor, limit, limits), documents[n..], |limits| + 1)
    decreases |limits|
  {
    hide CoversExactly, FeedList, Resumable, NextPage;
    PageFrom(documents, cursor, n, limit);
    var page := NextPage(documents, cursor, Some(limit)).value;
    if page.limited && limits != [] {
      FeedFrom(documents, page.cursor, n + limit, limits[0], limits[1..]);
      FeedOneMore(documents, cursor, n, limit, limits, page);
    } else {
      FeedLast(documents, cursor, n, limit, limits, page);
    }
  }

  // If a document other than the last repeats an earlier key, a run stopping there loses its place.
  lemma RepeatedKeyIsRevisited(documents: seq<ConfiguredDocument>, i: nat, j: nat)
    requires i < j < |documents| - 1 && CursorOf(documents[i]) == CursorOf(documents[j])
    ensures !CoversExactly(FeedList(documents, None, j + 1, [|documents|]), documents, 2)
  {
    var cursor := Some(CursorOf(documents[j]));
    assert NextPage(documents, None, Some(j + 1)) == Ok(Page(documents[..j + 1], cursor, true));
    var index := FindIndex(documents, cursor.value).value;
    assert index <= i;
    assert NextPage(documents, cursor, Some(|documents|)) == Ok(Page(documents[index + 1..], cursor, false));
    assert FeedList(documents, cursor, |documents|, []) == Ok(Progress(documents[index + 1..], true));
    assert [|documents|][1..] == [];
    var r := FeedList(documents, None, j + 1, [|documents|]);
    assert r == Ok(Progress(documents[..j + 1] + documents[index + 1..], true));
    assert |r.value.selected| > |documents|;
  }

  // Feeding each cursor back covers the configured documents exactly once and in order, whatever
  // the positive limits, if and only if no document but the last repeats an earlier key.
  lemma ResumingCoversExactly(options: Options, configuration: Configuration)
    requires Fresh(options, configuration)
    ensures (forall limit: nat, limits | limit >= 1 && Positive(limits) ::
               CoversExactly(Feed(options.(limit := Some(limit)), configuration, limits), Configured(options), |limits| + 1))
            <==> Resumable(Configured(options))
  {
    hide Filtered;
    var documents := Configured(options);
    forall limit: nat, limits | limit >= 1 && Positive(limits)
      ensures Feed(options.(limit := Some(limit)), configuration, limits) == FeedList(documents, None, limit, limits)
    {
      SameFilter(options, options.(limit := Some(limit)), options.documents);
      FeedIsFeedList(options.(limit := Some(limit)), configuration, limits);
    }
    if Resumable(documents) {
      forall limit: nat, limits | limit >= 1 && Positive(limits)
        ensures CoversExactly(Feed(options.(limit := Some(limit)), configuration, limits), documents, |limits| + 1)
      {
        FeedFrom(documents, None, 0, limit, limits);
        assert documents[0..] == documents;
      }
    } else {
      var i, j :| 0 <= i < j < |documents| - 1 && CursorOf(documents[i]) == CursorOf(documents[j]);
      RepeatedKeyIsRevisited(documents, i, j);
      assert Positive([|documents|]) && |[|documents|]| + 1 == 2;
      assert Feed(options.(limit := Some(j + 1)), configuration, [|documents|]) == FeedList(documents, None, j + 1, [|documents|]);
    }
  }

  // Why there is no plan: an unknown source; a fingerprint without a cursor or a cursor without one; one
  // of another form, or of another configuration; or a cursor that names no enabled document.
  lemma PlanErrorsExactly(options: Options, configuration: Configuration)
    ensures var plan := CreateExecutionPlan(options, configuration);
            var known := options.sourceKey == None || options.sourceKey.value in configuration.sources;
            var given, cursor := options.resumeFingerprint, options.resumeAfter;
            var same := given.Some? && configuration.wellFormed(given.value)
                        && given.value == configuration.fingerprint(Configured(options));
            && (plan == Err(SourceNotFound) <==> !known)
            && (plan == Err(FingerprintWithoutCursor) <==> known && cursor == None && given.Some?)
            && (plan == Err(FingerprintRequired) <==> known && cursor.Some? && given == None)
            && (plan == Err(FingerprintInvalid) <==> known && cursor.Some? && given.Some? && !configuration.wellFormed(given.value))
            && (plan == Err(ConfigurationChanged) <==>
                  known && cursor.Some? && given.Some? && configuration.wellFormed(given.value) && !same)
            && (plan == Err(CursorNotFound) <==>
                  known && cursor.Some? && same && forall d :: d in Configured(options) ==> !NamedBy(d, cursor.value))
  {
    hide Configured;
    if options.resumeAfter.Some? {
      CursorNamed(Configured(options), options.resumeAfter.value);
    }
  }

  lemma CursorNamed(documents: seq<ConfiguredDocument>, cursor: Cursor)
    ensures FindIndex(documents, cursor).None? <==> forall d :: d in documents ==> !NamedBy(d, cursor)
  {
    var index := FindIndex(documents, cursor);
    if index.Some? {
      assert documents[index.value] in documents && NamedBy(documents[index.value], cursor);
    }
  }

  // A cursor is accepted only with the fingerprint of the very configuration it was issued for.
  lemma ResumeNeedsSameConfiguration(options: Options, configuration: Configuration)
    requires options.resumeAfter.Some? && CreateExecutionPlan(options, configuration).Ok?
    ensures options.resumeFingerprint == Some(configuration.fingerprint(Configured(options)))
    ensures exists i :: 0 <= i < |Configured(options)| && CursorOf(Configured(options)[i]) == options.resumeAfter.value
  {
    hide Filtered;
    var index := FindIndex(Configured(options), options.resumeAfter.value);
    assert index.Some?;
  }

  // A limit of zero selects nothing and leaves no cursor: the next run starts over.
  lemma ZeroLimitStartsOver(options: Options, configuration: Configuration)
    requires Fresh(options, configuration) && options.limit == Some(0) && Configured(options) != []
    ensures var plan := CreateExecutionPlan(options, configuration);
            plan.Ok? && plan.value.limited && plan.value.selected == [] && plan.value.cursor.None?
  {
  }
}
