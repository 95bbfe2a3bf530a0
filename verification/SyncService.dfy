// The synchronisation service: the write it makes for each fetch outcome, and the aliases it records.
module SyncService {
  import opened Prelude
  import opened CatalogTables
  import opened CatalogTransactions
  import opened CatalogInvariant
  import opened CatalogIntegrity
  import opened CatalogHistory
  import opened CatalogRuns

  /*** Aliases ***/

  function Priority(aliasType: AliasType): nat {
    match aliasType
    case CanonicalUrl => 1
    case OldUrl => 2
    case RedirectUrl => 3
  }

  // The normalized URL of a candidate, when it has one other than the canonical URL.
  function AliasUrl(candidate: AliasInput, canonical: string, normalize: string -> Option<string>): Option<string> {
    if normalize(candidate.url) == Some(canonical) then None else normalize(candidate.url)
  }

  // The alias has the strongest type any candidate gives its URL.
  ghost predicate Strongest(candidates: seq<AliasInput>, canonical: string, normalize: string -> Option<string>, alias: AliasInput) {
    && (exists c :: c in candidates && AliasUrl(c, canonical, normalize) == Some(alias.url) && c.aliasType == alias.aliasType)
    && (forall c :: c in candidates && AliasUrl(c, canonical, normalize) == Some(alias.url) ==>
          Priority(c.aliasType) <= Priority(alias.aliasType))
  }

  predicate Listed(aliases: seq<AliasInput>, url: string) {
    exists k :: 0 <= k < |aliases| && aliases[k].url == url
  }

  // One alias for each URL named, with the strongest type any candidate gives it.
  ghost predicate Collected(candidates: seq<AliasInput>, canonical: string, normalize: string -> Option<string>, aliases: seq<AliasInput>) {
    && (forall k :: 0 <= k < |aliases| ==> Strongest(candidates, canonical, normalize, aliases[k]))
    && (forall c :: c in candidates && AliasUrl(c, canonical, normalize).Some? ==> Listed(aliases, AliasUrl(c, canonical, normalize).value))
    && (forall k, l :: 0 <= k < l < |aliases| ==> aliases[k].url != aliases[l].url)
  }

  function Find(aliases: seq<AliasInput>, url: string): (k: Option<nat>)
    ensures k.Some? ==> k.value < |aliases| && aliases[k.value].url == url
    ensures k.None? ==> forall l :: 0 <= l < |aliases| ==> aliases[l].url != url
  {
    if aliases == [] then None
    else if aliases[|aliases| - 1].url == url then Some(|aliases| - 1)
    else Find(aliases[..|aliases| - 1], url)
  }

  // One more candidate that does not name the URL, or no more strongly.
  lemma StillStrongest(candidates: seq<AliasInput>, canonical: string, normalize: string -> Option<string>, c: AliasInput, alias: AliasInput)
    requires Strongest(candidates, canonical, normalize, alias)
    requires AliasUrl(c, canonical, normalize) == Some(alias.url) ==> Priority(c.aliasType) <= Priority(alias.aliasType)
    ensures Strongest(candidates + [c], canonical, normalize, alias)
  {
    var d :| d in candidates && AliasUrl(d, canonical, normalize) == Some(alias.url) && d.aliasType == alias.aliasType;
    assert d in candidates + [c];
  }

  // A candidate that is the first to name its URL, or names it more strongly than all before.
  lemma NowStrongest(candidates: seq<AliasInput>, canonical: string, normalize: string -> Option<string>, c: AliasInput, url: string)
    requires AliasUrl(c, canonical, normalize) == Some(url)
    requires forall d :: d in candidates && AliasUrl(d, canonical, normalize) == Some(url) ==> Priority(d.aliasType) <= Priority(c.aliasType)
    ensures Strongest(candidates + [c], canonical, normalize, AliasInput(url, c.aliasType))
  {
    assert c in candidates + [c];
  }

  lemma PassedOver(candidates: seq<AliasInput>, canonical: string, normalize: string -> Option<string>, aliases: seq<AliasInput>, c: AliasInput)
    requires Collected(candidates, canonical, normalize, aliases)
    requires AliasUrl(c, canonical, normalize).None?
             || exists k :: 0 <= k < |aliases| && AliasUrl(c, canonical, normalize) == Some(aliases[k].url)
                            && Priority(c.aliasType) <= Priority(aliases[k].aliasType)
    ensures Collected(candidates + [c], canonical, normalize, aliases)
  {
    hide AliasUrl, Strongest;
    forall l | 0 <= l < |aliases|
      ensures Strongest(candidates + [c], canonical, normalize, aliases[l])
    {
      StillStrongest(candidates, canonical, normalize, c, aliases[l]);
    }
  }

  lemma Appended(candidates: seq<AliasInput>, canonical: string, normalize: string -> Option<string>, aliases: seq<AliasInput>, c: AliasInput, url: string)
    requires Collected(candidates, canonical, normalize, aliases)
    requires AliasUrl(c, canonical, normalize) == Some(url) && forall l :: 0 <= l < |aliases| ==> aliases[l].url != url
    ensures Collected(candidates + [c], canonical, normalize, aliases + [AliasInput(url, c.aliasType)])
  {
    assert !Listed(aliases, url);
    hide AliasUrl, Strongest, Listed;
    var more := aliases + [AliasInput(url, c.aliasType)];
    ListedAfter(aliases, AliasInput(url, c.aliasType));
    NowStrongest(candidates, canonical, normalize, c, url);
    forall l | 0 <= l < |more|
      ensures Strongest(candidates + [c], canonical, normalize, more[l])
    {
      if l < |aliases| {
        StillStrongest(candidates, canonical, normalize, c, aliases[l]);
      }
    }
  }

  lemma ListedAfter(aliases: seq<AliasInput>, alias: AliasInput)
    ensures forall url :: Listed(aliases + [alias], url) <==> Listed(aliases, url) || url == alias.url
  {
    var more := aliases + [alias];
    assert more[|aliases|] == alias;
    forall url | Listed(aliases, url)
      ensures Listed(more, url)
    {
      var k :| 0 <= k < |aliases| && aliases[k].url == url;
      assert more[k].url == url;
    }
  }

  lemma Strengthened(candidates: seq<AliasInput>, canonical: string, normalize: string -> Option<string>, aliases: seq<AliasInput>, c: AliasInput, k: nat)
    requires Collected(candidates, canonical, normalize, aliases) && k < |aliases|
    requires AliasUrl(c, canonical, normalize) == Some(aliases[k].url) && Priority(c.aliasType) > Priority(aliases[k].aliasType)
    ensures Collected(candidates + [c], canonical, normalize, aliases[k := AliasInput(aliases[k].url, c.aliasType)])
  {
    var better := aliases[k := AliasInput(aliases[k].url, c.aliasType)];
    SameUrls(aliases, better);
    assert Strongest(candidates, canonical, normalize, aliases[k]);
    NowStrongest(candidates, canonical, normalize, c, aliases[k].url);
    hide AliasUrl, Strongest, Listed;
    forall l | 0 <= l < |better|
      ensures Strongest(candidates + [c], canonical, normalize, better[l])
    {
      if l != k {
        StillStrongest(candidates, canonical, normalize, c, aliases[l]);
      }
    }
  }

  lemma SameUrls(a: seq<AliasInput>, b: seq<AliasInput>)
    requires |a| == |b| && forall k :: 0 <= k < |a| ==> a[k].url == b[k].url
    ensures forall url :: Listed(a, url) <==> Listed(b, url)
  {
  }

  // Aliases stand in the order their URLs were first named; a stronger type replaces a weaker one in place.
  method CollectAliases(canonicalUrl: string, candidates: seq<AliasInput>, normalize: string -> Option<string>)
    returns (aliases: seq<AliasInput>)
    ensures var canonical := if normalize(canonicalUrl).Some? then normalize(canonicalUrl).value else canonicalUrl;
            && Collected(candidates, canonical, normalize, aliases)
            && (forall k :: 0 <= k < |aliases| ==> aliases[k].url != canonical && TypedByStrength(candidates, normalize, aliases[k]))
            && forall c :: c in candidates && normalize(c.url).Some? && normalize(c.url).value != canonical ==>
                 exists k :: 0 <= k < |aliases| && aliases[k].url == normalize(c.url).value
  {
    hide Collected, TypedByStrength;
    var canonical := if normalize(canonicalUrl).Some? then normalize(canonicalUrl).value else canonicalUrl;
    aliases := [];
    NothingCollected(canonical, normalize);
    for i := 0 to |candidates|
      invariant Collected(candidates[..i], canonical, normalize, aliases)
    {
      var c := candidates[i];
      assert candidates[..i + 1] == candidates[..i] + [c];
      var url := AliasUrl(c, canonical, normalize);
      if url.None? {
        PassedOver(candidates[..i], canonical, normalize, aliases, c);
      } else {
        var existing := Find(aliases, url.value);
        assert existing.Some? ==> url == Some(aliases[existing.value].url);
        if existing.None? {
          Appended(candidates[..i], canonical, normalize, aliases, c, url.value);
          aliases := aliases + [AliasInput(url.value, c.aliasType)];
        } else if Priority(c.aliasType) > Priority(aliases[existing.value].aliasType) {
          Strengthened(candidates[..i], canonical, normalize, aliases, c, existing.value);
          aliases := aliases[existing.value := AliasInput(url.value, c.aliasType)];
        } else {
          PassedOver(candidates[..i], canonical, normalize, aliases, c);
        }
      }
    }
    assert candidates[..|candidates|] == candidates;
    CollectedMeans(candidates, canonical, normalize, aliases);
  }

  // Some candidate gives the URL this type.
  ghost predicate Given(candidates: seq<AliasInput>, normalize: string -> Option<string>, url: string, aliasType: AliasType) {
    exists c :: c in candidates && normalize(c.url) == Some(url) && c.aliasType == aliasType
  }

  // A URL that redirected is recorded as that, else one used before as that, else as canonical.
  ghost predicate TypedByStrength(candidates: seq<AliasInput>, normalize: string -> Option<string>, alias: AliasInput) {
    if Given(candidates, normalize, alias.url, RedirectUrl) then alias.aliasType == RedirectUrl
    else if Given(candidates, normalize, alias.url, OldUrl) then alias.aliasType == OldUrl
    else Given(candidates, normalize, alias.url, CanonicalUrl) && alias.aliasType == CanonicalUrl
  }

  // Exactly the URLs named, other than the canonical one, are recorded.
  lemma CollectedMeans(candidates: seq<AliasInput>, canonical: string, normalize: string -> Option<string>, aliases: seq<AliasInput>)
    requires Collected(candidates, canonical, normalize, aliases)
    ensures forall k :: 0 <= k < |aliases| ==> aliases[k].url != canonical && TypedByStrength(candidates, normalize, aliases[k])
    ensures forall c :: c in candidates && normalize(c.url).Some? && normalize(c.url).value != canonical ==>
              exists k :: 0 <= k < |aliases| && aliases[k].url == normalize(c.url).value
  {
    forall k | 0 <= k < |aliases|
      ensures aliases[k].url != canonical && TypedByStrength(candidates, normalize, aliases[k])
    {
      StrongestIsTyped(candidates, canonical, normalize, aliases[k]);
    }
  }

  lemma StrongestIsTyped(candidates: seq<AliasInput>, canonical: string, normalize: string -> Option<string>, alias: AliasInput)
    requires Strongest(candidates, canonical, normalize, alias)
    ensures alias.url != canonical && TypedByStrength(candidates, normalize, alias)
  {
    var c :| c in candidates && AliasUrl(c, canonical, normalize) == Some(alias.url) && c.aliasType == alias.aliasType;
    assert Given(candidates, normalize, alias.url, alias.aliasType);
  }

  lemma NothingCollected(canonical: string, normalize: string -> Option<string>)
    ensures Collected([], canonical, normalize, [])
  {
  }

  /*** The write of one document ***/

  datatype Existing = Existing(id: nat, row: Document)

  // What fetching a document came to.
  datatype Fetch =
    | NotModified(redirectTarget: Option<string>)
    | Fetched(canonicalUrl: string, title: string, redirectedPermanently: bool, version: VersionInput, sections: seq<SectionInput>)
    | Missing(gone: bool)
    | Unavailable
    | OtherFailure

  datatype Requested = Requested(sourceId: nat, stableKey: string, publicId: string, language: string)

  // The catalog write the service makes, if any. `observation` is what it records with it.
  function WriteFor(requested: Requested, existing: Option<Existing>, hasVersion: bool, fetch: Fetch,
                    observation: Observation, now: int, times: CommitTimes): Option<Op>
  {
    match fetch
    case NotModified(target) =>
      if existing.None? || !hasVersion then None
      else
        var row := existing.value.row;
        if target.Some? && (row.canonicalUrl != target.value || !row.status.Redirected?) then
          Some(UpsertOp(DocumentInput(row.publicId, row.sourceId, target.value, row.stableKey, row.title, row.language, Redirected),
                        Some(observation), now, now))
        else Some(TouchOp(existing.value.id, Some(observation), now))
    case Fetched(canonicalUrl, title, redirectedPermanently, version, sections) =>
      Some(CommitOp(RevisionInput(DocumentInput(requested.publicId, requested.sourceId, canonicalUrl, requested.stableKey, title,
                                                requested.language, if redirectedPermanently then Redirected else Active),
                                  version, sections),
                    Some(observation), times))
    case Missing(gone) =>
      if existing.None? then None
      else
        var row := existing.value.row;
        Some(UpsertOp(DocumentInput(requested.publicId, requested.sourceId, row.canonicalUrl, requested.stableKey, row.title,
                                    row.language, if gone then Removed else Stale),
                      Some(observation), now, now))
    case Unavailable => if existing.None? then None else Some(RecordOp(existing.value.id, observation, now))
    case OtherFailure => None
  }

  // Whatever is fetched, the write has derived ids and activates nothing without a version.
  lemma WritesAreServiceCalls(idOf: (nat, string) -> string, requested: Requested, existing: Option<Existing>,
                              hasVersion: bool, fetch: Fetch, observation: Observation, now: int, times: CommitTimes)
    requires requested.publicId == idOf(requested.sourceId, requested.stableKey)
    requires existing.Some? ==> existing.value.row.publicId == idOf(existing.value.row.sourceId, existing.value.row.stableKey)
    ensures var op := WriteFor(requested, existing, hasVersion, fetch, observation, now, times);
            op.Some? ==> ServiceCall(op.value, idOf) && ObservationOf(op.value) == Some(observation)
  {
  }

  // One document of a synchronisation run, with the row seen before it was fetched; or another
  // store's call in between.
  datatype Turn =
    | Sync(store: nat, requested: Requested, existing: Option<Existing>, hasVersion: bool, fetch: Fetch,
           observation: Observation, now: int, times: CommitTimes)
    | Other(store: nat, op: Op)

  function WriteOf(turn: Turn): Option<Op> {
    match turn
    case Sync(_, requested, existing, hasVersion, fetch, observation, now, times) =>
      WriteFor(requested, existing, hasVersion, fetch, observation, now, times)
    case Other(_, op) => Some(op)
  }

  function EventsOf(turns: seq<Turn>): seq<Event> {
    if turns == [] then []
    else (if WriteOf(turns[0]).Some? then [Event(turns[0].store, WriteOf(turns[0]).value)] else []) + EventsOf(turns[1..])
  }

  ghost predicate DerivedTurn(turn: Turn, idOf: (nat, string) -> string) {
    match turn
    case Sync(_, requested, existing, _, _, _, _, _) =>
      && requested.publicId == idOf(requested.sourceId, requested.stableKey)
      && (existing.Some? ==> existing.value.row.publicId == idOf(existing.value.row.sourceId, existing.value.row.stableKey))
    case Other(_, op) => ServiceCall(op, idOf)
  }

  lemma {:induction false} TurnsAreServiceCalls(turns: seq<Turn>, idOf: (nat, string) -> string)
    requires forall i :: 0 <= i < |turns| ==> DerivedTurn(turns[i], idOf)
    ensures forall i :: 0 <= i < |EventsOf(turns)| ==> ServiceCall(EventsOf(turns)[i].op, idOf)
  {
    if turns != [] {
      TurnsAreServiceCalls(turns[1..], idOf);
      match turns[0] {
        case Sync(_, requested, existing, hasVersion, fetch, observation, now, times) =>
          WritesAreServiceCalls(idOf, requested, existing, hasVersion, fetch, observation, now, times);
        case Other(_, _) =>
      }
      var first := if WriteOf(turns[0]).Some? then [Event(turns[0].store, WriteOf(turns[0]).value)] else [];
      assert EventsOf(turns) == first + EventsOf(turns[1..]);
    }
  }

  // Any interleaving of synchronisation runs with other stores' calls, from a consistent and
  // complete catalog, ends in one the integrity check finds nothing in.
  lemma SynchronisationKeepsCatalogSound(st: State, turns: seq<Turn>, idOf: (nat, string) -> string, tokenize: string -> seq<string>)
    requires CatalogConsistent(st.tables) && LedgerResolves(st.tables) && NothingMissing(st.tables) && Derived(st.tables, idOf)
    requires forall i :: 0 <= i < |turns| ==> DerivedTurn(turns[i], idOf)
    ensures CatalogConsistent(After(st, EventsOf(turns)).tables) && NothingMissing(After(st, EventsOf(turns)).tables)
    ensures Sound(After(st, EventsOf(turns)).tables, tokenize)
  {
    TurnsAreServiceCalls(turns, idOf);
    ServiceHistoriesStaySound(st, EventsOf(turns), idOf, tokenize);
  }
}
