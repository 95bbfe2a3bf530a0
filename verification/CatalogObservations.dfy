// Observations: what a document write records on behalf of a sync run, and the fence in front of it.
module CatalogObservations {
  import opened Prelude
  import opened CatalogTables
  import opened CatalogInvariant

  // The outcome of a transaction: the tables after it, the tokens its store still holds, and its error.
  datatype Outcome = Outcome(tables: Tables, owned: map<nat, OwnerToken>, error: Option<CatalogError>)

  // A transaction that throws leaves the tables as they were.
  function RolledBack(t: Tables, owned: map<nat, OwnerToken>, error: CatalogError): Outcome {
    Outcome(t, owned, Some(error))
  }

  function UpsertAlias(aliases: map<AliasKey, Alias>, documentId: nat, input: AliasInput, at: int): map<AliasKey, Alias> {
    var key := AliasKey(documentId, input.url);
    aliases[key := if key in aliases
                   then aliases[key].(aliasType := input.aliasType, lastSeenAt := at)
                   else Alias(input.aliasType, at, at)]
  }

  function UpsertAliases(aliases: map<AliasKey, Alias>, documentId: nat, inputs: seq<AliasInput>, at: int): map<AliasKey, Alias>
    decreases |inputs|
  {
    if inputs == [] then aliases
    else UpsertAlias(UpsertAliases(aliases, documentId, inputs[..|inputs| - 1], at), documentId, inputs[|inputs| - 1], at)
  }

  function EventRows(documentId: nat, runId: nat, inputs: seq<EventInput>, at: int): seq<StalenessEvent> {
    seq(|inputs|, i requires 0 <= i < |inputs| =>
      StalenessEvent(documentId, runId, inputs[i].eventType, at, inputs[i].details))
  }

  predicate ValidEvents(inputs: seq<EventInput>) {
    forall i :: 0 <= i < |inputs| ==> inputs[i].isJsonObject
  }

  function RefreshedVersion(row: Version, validators: Validators, at: int): Version {
    row.(etag := if validators.etag.Some? then validators.etag else row.etag,
         lastModified := if validators.lastModified.Some? then validators.lastModified else row.lastModified,
         fetchedAt := at)
  }

  // The version the document points to, if that row exists.
  function CurrentVersion(t: Tables, documentId: nat): Option<nat> {
    if documentId in t.documents && t.documents[documentId].currentVersion.Some?
       && t.documents[documentId].currentVersion.value in t.versions
    then t.documents[documentId].currentVersion else None
  }

  // The store holds a token for the run and the run is still RUNNING under it.
  predicate MayWrite(t: Tables, owned: map<nat, OwnerToken>, observation: Observation) {
    observation.runId in owned && HoldsLease(t.runs, observation.runId, owned[observation.runId])
  }

  // The tables once the fence has been passed and nothing failed.
  function Observed(t: Tables, documentId: nat, observation: Observation, at: int): Tables
    requires observation.runId in t.runs
  {
    var refreshed := if observation.validators.Some? && CurrentVersion(t, documentId).Some? then
        var v := CurrentVersion(t, documentId).value;
        t.versions[v := RefreshedVersion(t.versions[v], observation.validators.value, at)]
      else t.versions;
    t.(runs := t.runs[observation.runId := t.runs[observation.runId].(heartbeatAt := Some(at))],
       versions := refreshed,
       aliases := UpsertAliases(t.aliases, documentId, observation.aliases, at),
       events := t.events + EventRows(documentId, observation.runId, observation.events, at))
  }

  // persistObservation inside a transaction that started from `before`.
  function Observe(before: Tables, t: Tables, owned: map<nat, OwnerToken>, documentId: nat,
                   observation: Option<Observation>, at: int): Outcome
  {
    if observation.None? then Outcome(t, owned, None)
    else
      var o := observation.value;
      if o.runId !in owned then
        RolledBack(before, owned, if o.runId in t.runs then OwnershipLost else ConstraintViolation)
      else if !MayWrite(t, owned, o) then RolledBack(before, owned - {o.runId}, OwnershipLost)
      else if o.validators.Some? && CurrentVersion(t, documentId).None? then
        RolledBack(before, owned, ValidatorRefreshFailed)
      else if !ValidEvents(o.events) then RolledBack(before, owned, EventDetailsInvalid)
      else Outcome(Observed(t, documentId, o, at), owned, None)
  }

  // What no observation touches, and what it keeps.
  lemma ObservedKeepsCatalog(t: Tables, documentId: nat, observation: Observation, at: int)
    requires observation.runId in t.runs
    ensures var u := Observed(t, documentId, observation, at);
            && Projection(u) == Projection(t) && u.index == t.index
            && u.sources == t.sources && u.documents == t.documents && u.sections == t.sections
            && (BaseConsistent(t) ==> BaseConsistent(u))
            && (NothingMissing(t) ==> NothingMissing(u))
  {
    VersionShapeDecides(t, Observed(t, documentId, observation, at));
  }
}
