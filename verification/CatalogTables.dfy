// The rows of the catalog database and the meaning of the SQL statements that the
// revision writer, the source store, the sync store and the purger issue.
module CatalogTables {
  import opened Prelude

  datatype CatalogError =
    | ConstraintViolation
    | RevisionRequiresSections
    | SectionLimitExceeded
    | DocumentNotFound
    | VersionNotFound
    | SourceNotFound
    | CommitFailed
    | RunNotFound
    | RunAlreadyRunning
    | RunAlreadyCompleted
    | OwnershipLost
    | CompletionPrecedesStart
    | ValidatorRefreshFailed
    | EventDetailsInvalid

  datatype Result<+T> = Ok(value: T) | Err(error: CatalogError)

  datatype DocumentStatus = Active | Stale | Redirected | Removed | Unavailable

  // Columns that no statement reads for a decision are represented by one of their kind:
  // displayName stands for the descriptive columns of a source, metadata for those of a version.
  datatype Source = Source(key: string, displayName: string, enabled: bool, createdAt: int, updatedAt: int)

  datatype Document = Document(publicId: string, sourceId: nat, canonicalUrl: string, stableKey: string,
                               title: string, language: string, status: DocumentStatus,
                               currentVersion: Option<nat>, firstSeenAt: int, lastSeenAt: int, updatedAt: int)

  datatype Version = Version(documentId: nat, contentHash: string, etag: Option<string>,
                             lastModified: Option<string>, fetchedAt: int, isCurrent: bool,
                             pendingCurrent: bool, metadata: string)

  datatype Section = Section(versionId: nat, ordinal: int, heading: Option<string>,
                             headingPath: Option<string>, content: string)

  // A row of the full-text index; its row id is the section id.
  datatype IndexRow = IndexRow(documentId: nat, sourceKey: string, language: string,
                               title: string, heading: string, headingPath: string, content: string)

  datatype AliasType = OldUrl | RedirectUrl | CanonicalUrl
  datatype AliasKey = AliasKey(documentId: nat, url: string)
  datatype Alias = Alias(aliasType: AliasType, firstSeenAt: int, lastSeenAt: int)
  datatype StalenessEvent = StalenessEvent(documentId: nat, runId: nat, eventType: string, observedAt: int, details: string)

  datatype RunKind = Execution | Plan
  datatype RunStatus = Running | Success | Partial | Failed | Cancelled
  datatype RunTotals = RunTotals(checked: nat, added: nat, updated: nat, same: nat, failed: nat)

  // An owner token is its entropy plus the process identity encoded in it, when one is known.
  datatype OwnerToken = OwnerToken(entropy: nat, processIdentity: Option<string>)

  datatype SyncRun = SyncRun(sourceId: Option<nat>, kind: RunKind, startedAt: int, completedAt: Option<int>,
                             status: RunStatus, totals: RunTotals, errorSummary: Option<string>,
                             ownerToken: Option<OwnerToken>, ownerPid: Option<nat>,
                             ownerHostname: Option<string>, heartbeatAt: Option<int>)

  datatype Tables = Tables(sources: map<nat, Source>, documents: map<nat, Document>,
                           versions: map<nat, Version>, sections: map<nat, Section>,
                           index: map<nat, IndexRow>, aliases: map<AliasKey, Alias>,
                           events: seq<StalenessEvent>, runs: map<nat, SyncRun>)

  datatype SourceInput = SourceInput(key: string, displayName: string, enabled: bool)
  datatype DocumentInput = DocumentInput(publicId: string, sourceId: nat, canonicalUrl: string, stableKey: string,
                                         title: string, language: string, status: DocumentStatus)
  datatype VersionInput = VersionInput(documentId: nat, contentHash: string, etag: Option<string>,
                                       lastModified: Option<string>, metadata: string, isCurrent: bool)
  datatype SectionInput = SectionInput(ordinal: int, heading: Option<string>, headingPath: Option<string>, content: string)
  // The documentId and isCurrent fields of a revision's version are overwritten by the commit.
  datatype RevisionInput = RevisionInput(document: DocumentInput, version: VersionInput, sections: seq<SectionInput>)

  datatype AliasInput = AliasInput(url: string, aliasType: AliasType)
  // isJsonObject is the outcome of parsing the details text.
  datatype EventInput = EventInput(eventType: string, details: string, isJsonObject: bool)
  datatype Validators = Validators(etag: Option<string>, lastModified: Option<string>)
  datatype Observation = Observation(runId: nat, aliases: seq<AliasInput>, events: seq<EventInput>,
                                     validators: Option<Validators>)

  const MAX_PERSISTED_DOCUMENT_SECTIONS := 1024

  /*** Documents ***/

  predicate HasKey(row: Document, sourceId: nat, stableKey: string) {
    row.sourceId == sourceId && row.stableKey == stableKey
  }

  function DocumentsByKey(documents: map<nat, Document>, sourceId: nat, stableKey: string): set<nat> {
    set d | d in documents && HasKey(documents[d], sourceId, stableKey)
  }

  function DocumentsByPublicId(documents: map<nat, Document>, publicId: string): set<nat> {
    set d | d in documents && documents[d].publicId == publicId
  }

  // Rows other than `except` that already use the input's (source, canonical URL).
  function UrlConflicts(documents: map<nat, Document>, input: DocumentInput, except: set<nat>): set<nat> {
    set d | d in documents && d !in except
            && documents[d].sourceId == input.sourceId && documents[d].canonicalUrl == input.canonicalUrl
  }

  function UpdatedDocument(row: Document, input: DocumentInput, now: int): Document {
    row.(canonicalUrl := input.canonicalUrl, title := input.title, language := input.language,
         status := input.status, lastSeenAt := now, updatedAt := now)
  }

  function NewDocument(input: DocumentInput, now: int): Document {
    Document(input.publicId, input.sourceId, input.canonicalUrl, input.stableKey, input.title,
             input.language, input.status, None, now, now, now)
  }

  /*** Versions and sections ***/

  function VersionsByHash(versions: map<nat, Version>, documentId: nat, contentHash: string): set<nat> {
    set v | v in versions && versions[v].documentId == documentId && versions[v].contentHash == contentHash
  }

  function VersionRow(input: VersionInput, fetchedAt: int, pendingCurrent: bool): Version {
    Version(input.documentId, input.contentHash, input.etag, input.lastModified, fetchedAt,
            input.isCurrent, pendingCurrent, input.metadata)
  }

  function ClearCurrentVersions(versions: map<nat, Version>, documentId: nat): map<nat, Version> {
    map v | v in versions ::
      if versions[v].documentId == documentId then versions[v].(isCurrent := false) else versions[v]
  }

  function SectionsWithout(sections: map<nat, Section>, versionId: nat): map<nat, Section> {
    map s | s in sections && sections[s].versionId != versionId :: sections[s]
  }

  function SectionRow(versionId: nat, input: SectionInput): Section {
    Section(versionId, input.ordinal, input.heading, input.headingPath, input.content)
  }

  function StoredOrdinals(sections: map<nat, Section>, versionId: nat): set<int> {
    set s | s in sections && sections[s].versionId == versionId :: sections[s].ordinal
  }

  predicate DistinctOrdinals(sections: seq<SectionInput>) {
    forall i, j :: 0 <= i < j < |sections| ==> sections[i].ordinal != sections[j].ordinal
  }

  /*** Full-text index ***/

  // The inner joins of the index statements: section, version, document and source all exist.
  predicate Joined(t: Tables, s: nat) {
    && s in t.sections
    && t.sections[s].versionId in t.versions
    && t.versions[t.sections[s].versionId].documentId in t.documents
    && t.documents[t.versions[t.sections[s].versionId].documentId].sourceId in t.sources
  }

  function SectionVersion(t: Tables, s: nat): nat
    requires s in t.sections
  {
    t.sections[s].versionId
  }

  function SectionDocument(t: Tables, s: nat): nat
    requires Joined(t, s)
  {
    t.versions[t.sections[s].versionId].documentId
  }

  predicate DocumentSearchable(t: Tables, d: nat)
    requires d in t.documents && t.documents[d].sourceId in t.sources
  {
    t.sources[t.documents[d].sourceId].enabled && t.documents[d].status.Active?
  }

  function Text(o: Option<string>): string {
    if o.Some? then o.value else ""
  }

  function IndexedText(t: Tables, s: nat): IndexRow
    requires Joined(t, s)
  {
    var d := SectionDocument(t, s);
    IndexRow(d, t.sources[t.documents[d].sourceId].key, t.documents[d].language, t.documents[d].title,
             Text(t.sections[s].heading), Text(t.sections[s].headingPath), t.sections[s].content)
  }

  // A section of the version its document points to, flagged current.
  predicate CurrentSection(t: Tables, s: nat) {
    && Joined(t, s)
    && t.versions[SectionVersion(t, s)].isCurrent
    && t.documents[SectionDocument(t, s)].currentVersion == Some(SectionVersion(t, s))
  }

  predicate SearchableSection(t: Tables, s: nat) {
    CurrentSection(t, s) && DocumentSearchable(t, SectionDocument(t, s))
  }

  // What a full rebuild of the index inserts.
  function Projection(t: Tables): map<nat, IndexRow> {
    map s | s in t.sections && SearchableSection(t, s) :: IndexedText(t, s)
  }

  // What the per-version index statement inserts: it tests neither the flag nor the pointer.
  function VersionProjection(t: Tables, versionId: nat): map<nat, IndexRow> {
    map s | s in t.sections && Joined(t, s) && SectionVersion(t, s) == versionId
            && DocumentSearchable(t, SectionDocument(t, s)) :: IndexedText(t, s)
  }

  // The index rows the per-document delete removes: those whose section joins to a version of the document.
  function DocumentSections(t: Tables, documentId: nat): set<nat> {
    set s | s in t.sections && t.sections[s].versionId in t.versions
            && t.versions[t.sections[s].versionId].documentId == documentId
  }

  /*** Sync runs ***/

  predicate IsLive(run: SyncRun) {
    run.status.Running? && run.completedAt.None?
  }

  predicate HoldsLease(runs: map<nat, SyncRun>, id: nat, token: OwnerToken) {
    id in runs && IsLive(runs[id]) && runs[id].ownerToken == Some(token)
  }
}
