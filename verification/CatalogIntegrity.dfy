// The integrity check: which rows its queries report, and what it means that they report none.
module CatalogIntegrity {
  import opened Prelude
  import opened CatalogTables
  import opened CatalogInvariant
  import opened CatalogColumns
  import opened CatalogStores

  datatype IssueCode =
    | SqliteIntegrityCheckFailed
    | SqliteForeignKeyCheckFailed
    | ActiveDocumentWithoutCurrentVersion
    | CurrentVersionMissingOrWrongDocument
    | CurrentVersionNotMarkedCurrent
    | CurrentVersionWithoutSections
    | CurrentVersionFlagNotPointed
    | CurrentSectionMissingFromFts
    | FtsEntryContentMismatch
    | FtsEntryOrphaned

  datatype ForeignKey =
    | SourceOfDocument
    | DocumentOfVersion
    | VersionOfSection
    | DocumentOfAlias
    | SourceOfRun
    | DocumentOfEvent
    | RunOfEvent

  const FOREIGN_KEYS :=
    [SourceOfDocument, DocumentOfVersion, VersionOfSection, DocumentOfAlias, SourceOfRun, DocumentOfEvent, RunOfEvent]

  // A row id (the place, for a staleness event), or the document and URL of an alias.
  datatype Row = Numbered(id: nat) | AliasRow(key: AliasKey)

  // `row` is the document, version, section or index row reported, or the row with the foreign key.
  datatype Issue = Issue(code: IssueCode, foreignKey: Option<ForeignKey>, row: Row)

  datatype Counts = Counts(sources: nat, enabledSources: nat, documents: nat, activeDocuments: nat,
                           currentSections: nat, indexedSections: nat)

  datatype Report = Report(counts: Counts, issues: seq<Issue>)

  // The positions of an index row's terms in its four indexed columns.
  datatype Instance = Instance(term: string, doc: nat, col: nat, offset: nat)

  const INDEXED_COLUMNS := 4

  function Column(row: IndexRow, col: nat): string
    requires col < INDEXED_COLUMNS
  {
    if col == 0 then row.title else if col == 1 then row.heading else if col == 2 then row.headingPath else row.content
  }

  function Instances(index: map<nat, IndexRow>, tokenize: string -> seq<string>): set<Instance> {
    set s, c, i | s in index && 0 <= c < INDEXED_COLUMNS && 0 <= i < |tokenize(Column(index[s], c))| ::
      Instance(tokenize(Column(index[s], c))[i], s, c, i)
  }

  /*** The queries ***/

  function Ids(ids: set<nat>): set<Row> {
    set i | i in ids :: Numbered(i)
  }

  // The rows whose foreign key names no row; a run without a source names none.
  function ForeignKeyRows(t: Tables, foreignKey: ForeignKey): set<Row> {
    match foreignKey
    case SourceOfDocument => Ids(set d | d in t.documents && t.documents[d].sourceId !in t.sources)
    case DocumentOfVersion => Ids(set v | v in t.versions && t.versions[v].documentId !in t.documents)
    case VersionOfSection => Ids(set s | s in t.sections && t.sections[s].versionId !in t.versions)
    case DocumentOfAlias => set k | k in t.aliases && k.documentId !in t.documents :: AliasRow(k)
    case SourceOfRun => Ids(set r | r in t.runs && t.runs[r].sourceId.Some? && t.runs[r].sourceId.value !in t.sources)
    case DocumentOfEvent => Ids(set i: nat | i < |t.events| && t.events[i].documentId !in t.documents)
    case RunOfEvent => Ids(set i: nat | i < |t.events| && t.events[i].runId !in t.runs)
  }

  predicate HasSource(t: Tables, d: nat) {
    d in t.documents && t.documents[d].sourceId in t.sources
  }

  function ActiveWithoutVersion(t: Tables): set<nat> {
    set d | d in t.documents && HasSource(t, d) && t.documents[d].status.Active? && t.documents[d].currentVersion.None?
  }

  function PointingNowhere(t: Tables): set<nat> {
    set d | d in t.documents && HasSource(t, d) && t.documents[d].currentVersion.Some?
            && !(t.documents[d].currentVersion.value in t.versions
                 && t.versions[t.documents[d].currentVersion.value].documentId == d)
  }

  function PointingToUnflagged(t: Tables): set<nat> {
    set d | d in t.documents && HasSource(t, d) && CurrentRow(t, d).Some? && !t.versions[CurrentRow(t, d).value].isCurrent
  }

  // The version row joined on the pointer alone.
  function CurrentRow(t: Tables, d: nat): (v: Option<nat>)
    requires d in t.documents
    ensures v.Some? ==> v.value in t.versions
  {
    if t.documents[d].currentVersion.Some? && t.documents[d].currentVersion.value in t.versions
    then t.documents[d].currentVersion else None
  }

  function SectionsOf(t: Tables, v: nat): set<nat> {
    set s | s in t.sections && t.sections[s].versionId == v
  }

  function WithoutSections(t: Tables): set<nat> {
    set d | d in t.documents && HasSource(t, d) && CurrentRow(t, d).Some?
            && |SectionsOf(t, CurrentRow(t, d).value)| == 0
  }

  function FlaggedUnpointed(t: Tables): set<nat> {
    set v | v in t.versions && t.versions[v].documentId in t.documents && HasSource(t, t.versions[v].documentId)
            && t.versions[v].isCurrent && t.documents[t.versions[v].documentId].currentVersion != Some(v)
  }

  function MissingFromIndex(t: Tables): set<nat> {
    set s | s in t.sections && SearchableSection(t, s) && s !in t.index
  }

  // Symmetric difference of the stored and the rebuilt vocabulary, then joined with rows to report.
  function ContentMismatches(t: Tables, tokenize: string -> seq<string>): set<nat> {
    var actual, expected := Instances(t.index, tokenize), Instances(Projection(t), tokenize);
    var mismatched := set i | i in (actual - expected) + (expected - actual) :: i.doc;
    set s | s in mismatched && s in t.sections && SearchableSection(t, s) && s in t.index
  }

  // The left joins leave missing columns NULL, and a comparison with NULL is not true (IS NOT is).
  predicate Orphaned(t: Tables, s: nat) {
    if s !in t.sections then true
    else
      var v := t.sections[s].versionId;
      if v !in t.versions then false
      else
        var d := t.versions[v].documentId;
        || !t.versions[v].isCurrent
        || (if d in t.documents then t.documents[d].currentVersion != Some(v) || !t.documents[d].status.Active? else true)
        || (d in t.documents && t.documents[d].sourceId in t.sources && !t.sources[t.documents[d].sourceId].enabled)
  }

  function OrphanedRows(t: Tables): set<nat> {
    set s | s in t.index && Orphaned(t, s)
  }

  function Rows(t: Tables, tokenize: string -> seq<string>, code: IssueCode): set<nat> {
    match code
    case SqliteIntegrityCheckFailed => {}
    case SqliteForeignKeyCheckFailed => {}
    case ActiveDocumentWithoutCurrentVersion => ActiveWithoutVersion(t)
    case CurrentVersionMissingOrWrongDocument => PointingNowhere(t)
    case CurrentVersionNotMarkedCurrent => PointingToUnflagged(t)
    case CurrentVersionWithoutSections => WithoutSections(t)
    case CurrentVersionFlagNotPointed => FlaggedUnpointed(t)
    case CurrentSectionMissingFromFts => MissingFromIndex(t)
    case FtsEntryContentMismatch => ContentMismatches(t, tokenize)
    case FtsEntryOrphaned => OrphanedRows(t)
  }

  // Whether the check reports this issue; `damaged` lists what SQLite's own check said is not ok.
  predicate Reported(t: Tables, tokenize: string -> seq<string>, damaged: nat, issue: Issue) {
    match issue.code
    case SqliteIntegrityCheckFailed => issue.foreignKey.None? && issue.row.Numbered? && issue.row.id < damaged
    case SqliteForeignKeyCheckFailed => issue.foreignKey.Some? && issue.row in ForeignKeyRows(t, issue.foreignKey.value)
    case _ => issue.foreignKey.None? && issue.row in Ids(Rows(t, tokenize, issue.code))
  }

  /*** What each issue says of the tables ***/

  // The row reported under a code has the flaw the code is for.
  predicate Flawed(t: Tables, tokenize: string -> seq<string>, code: IssueCode, r: nat) {
    match code
    case SqliteIntegrityCheckFailed => false
    case SqliteForeignKeyCheckFailed => false
    case ActiveDocumentWithoutCurrentVersion =>
      r in t.documents && t.documents[r].sourceId in t.sources && t.documents[r].status == Active && t.documents[r].currentVersion == None
    case CurrentVersionMissingOrWrongDocument =>
      && r in t.documents && t.documents[r].sourceId in t.sources && t.documents[r].currentVersion.Some?
      && var v := t.documents[r].currentVersion.value; v in t.versions ==> t.versions[v].documentId != r
    case CurrentVersionNotMarkedCurrent =>
      && r in t.documents && t.documents[r].sourceId in t.sources && t.documents[r].currentVersion.Some?
      && var v := t.documents[r].currentVersion.value; v in t.versions && !t.versions[v].isCurrent
    case CurrentVersionWithoutSections =>
      && r in t.documents && t.documents[r].sourceId in t.sources && t.documents[r].currentVersion.Some?
      && var v := t.documents[r].currentVersion.value;
         v in t.versions && forall s :: s in t.sections ==> t.sections[s].versionId != v
    case CurrentVersionFlagNotPointed =>
      && r in t.versions && t.versions[r].isCurrent
      && var d := t.versions[r].documentId;
         d in t.documents && t.documents[d].sourceId in t.sources && t.documents[d].currentVersion != Some(r)
    case CurrentSectionMissingFromFts => Displayed(t, r) && r !in t.index
    case FtsEntryContentMismatch => Displayed(t, r) && r in t.index && !ReadsAlike(t, tokenize, r)
    case FtsEntryOrphaned =>
      && r in t.index
      && (|| r !in t.sections
          || (&& t.sections[r].versionId in t.versions
              && var version := t.versions[t.sections[r].versionId];
                 (|| !version.isCurrent || version.documentId !in t.documents
                  || t.documents[version.documentId].currentVersion != Some(t.sections[r].versionId)
                  || t.documents[version.documentId].status != Active
                  || (t.documents[version.documentId].sourceId in t.sources && !t.sources[t.documents[version.documentId].sourceId].enabled))))
  }

  // The row's foreign key names no row; a run over all sources has none.
  predicate Dangling(t: Tables, foreignKey: ForeignKey, row: Row) {
    match row
    case AliasRow(key) => foreignKey == DocumentOfAlias && key in t.aliases && key.documentId !in t.documents
    case Numbered(r) =>
      match foreignKey
      case SourceOfDocument => r in t.documents && t.documents[r].sourceId !in t.sources
      case DocumentOfVersion => r in t.versions && t.versions[r].documentId !in t.documents
      case VersionOfSection => r in t.sections && t.sections[r].versionId !in t.versions
      case DocumentOfAlias => false
      case SourceOfRun => r in t.runs && t.runs[r].sourceId.Some? && t.runs[r].sourceId.value !in t.sources
      case DocumentOfEvent => r < |t.events| && t.events[r].documentId !in t.documents
      case RunOfEvent => r < |t.events| && t.events[r].runId !in t.runs
  }

  // The issue is SQLite's own, a foreign key that names no row, or a row with the flaw of its code.
  predicate IsFlaw(t: Tables, tokenize: string -> seq<string>, damaged: nat, issue: Issue) {
    match issue.code
    case SqliteIntegrityCheckFailed => issue.foreignKey == None && issue.row.Numbered? && issue.row.id < damaged
    case SqliteForeignKeyCheckFailed => issue.foreignKey.Some? && Dangling(t, issue.foreignKey.value, issue.row)
    case _ => issue.foreignKey == None && issue.row.Numbered? && Flawed(t, tokenize, issue.code, issue.row.id)
  }

  // Exactly the flaws of the tables are reported, each under its own code.
  lemma ReportedExactly(t: Tables, tokenize: string -> seq<string>, damaged: nat, issue: Issue)
    ensures Reported(t, tokenize, damaged, issue) <==> IsFlaw(t, tokenize, damaged, issue)
  {
    hide Rows, Flawed;
    match issue.code {
      case SqliteIntegrityCheckFailed =>
      case SqliteForeignKeyCheckFailed =>
      case _ =>
        if issue.row.Numbered? {
          CodesMeanTheirFlaws(t, tokenize, issue.code, issue.row.id);
        }
    }
  }

  // The indexed columns have the terms of the section's own.
  predicate ReadsAlike(t: Tables, tokenize: string -> seq<string>, s: nat)
    requires Displayed(t, s) && s in t.index
  {
    var row, section := t.index[s], t.sections[s];
    && tokenize(row.title) == tokenize(t.documents[t.versions[section.versionId].documentId].title)
    && tokenize(row.heading) == tokenize(OrEmpty(section.heading))
    && tokenize(row.headingPath) == tokenize(OrEmpty(section.headingPath))
    && tokenize(row.content) == tokenize(section.content)
  }

  lemma OrphansExactly(t: Tables, s: nat)
    requires ReferencesResolve(t)
    ensures s in OrphanedRows(t) <==> s in t.index && !Displayed(t, s)
  {
  }

  lemma MismatchesExactly(t: Tables, tokenize: string -> seq<string>, s: nat)
    ensures s in ContentMismatches(t, tokenize) <==> Displayed(t, s) && s in t.index && !ReadsAlike(t, tokenize, s)
  {
    hide Projection;
    RebuiltColumns(t);
    var actual, expected := Instances(t.index, tokenize), Instances(Projection(t), tokenize);
    if Displayed(t, s) && s in t.index {
      assert SearchableSection(t, s) && s in Projection(t);
      if !SameVocabularyOf(actual, expected, s) {
        var i: Instance :| i in actual + expected && i.doc == s && (i in actual) != (i in expected);
        assert i in (actual - expected) + (expected - actual);
      }
      InstancesDetermineTerms(t.index, Projection(t), tokenize, s);
      SameColumns(t, tokenize, s);
    }
  }

  lemma SameColumns(t: Tables, tokenize: string -> seq<string>, s: nat)
    requires Displayed(t, s) && s in t.index && s in Projection(t) && Shows(t, s, Projection(t)[s])
    ensures ReadsAlike(t, tokenize, s) <==>
              forall c :: 0 <= c < INDEXED_COLUMNS ==> tokenize(Column(t.index[s], c)) == tokenize(Column(Projection(t)[s], c))
  {
    hide Projection;
    var a, b := t.index[s], Projection(t)[s];
    assert Column(a, 0) == a.title && Column(a, 1) == a.heading && Column(a, 2) == a.headingPath && Column(a, 3) == a.content;
    assert Column(b, 0) == b.title && Column(b, 1) == b.heading && Column(b, 2) == b.headingPath && Column(b, 3) == b.content;
  }

  // What is reported under each code, row by row.
  lemma CodesMeanTheirFlaws(t: Tables, tokenize: string -> seq<string>, code: IssueCode, r: nat)
    ensures r in Rows(t, tokenize, code) <==> Flawed(t, tokenize, code, r)
  {
    hide ContentMismatches;
    match code {
      case FtsEntryContentMismatch => MismatchesExactly(t, tokenize, r);
      case CurrentVersionWithoutSections => BareVersions(t, r);
      case _ =>
    }
  }

  lemma BareVersions(t: Tables, d: nat)
    ensures d in WithoutSections(t) <==>
              && d in t.documents && t.documents[d].sourceId in t.sources && t.documents[d].currentVersion.Some?
              && var v := t.documents[d].currentVersion.value;
                 v in t.versions && forall s :: s in t.sections ==> t.sections[s].versionId != v
  {
    if d in t.documents && CurrentRow(t, d).Some? {
      var own := SectionsOf(t, CurrentRow(t, d).value);
      assert |own| == 0 <==> own == {};
      assert forall s :: s in t.sections && t.sections[s].versionId == CurrentRow(t, d).value ==> s in own;
    }
  }

  /*** What an empty report means ***/

  predicate PointersNameFlags(t: Tables) {
    && (forall d | d in t.documents && t.documents[d].currentVersion.Some? ::
          var v := t.documents[d].currentVersion.value;
          v in t.versions && t.versions[v].documentId == d && t.versions[v].isCurrent)
    && (forall v | v in t.versions && t.versions[v].isCurrent ::
          t.versions[v].documentId in t.documents && t.documents[t.versions[v].documentId].currentVersion == Some(v))
  }

  // The rows of the index are those of a rebuild, and read the same term by term.
  predicate IndexReadsTheSame(t: Tables, tokenize: string -> seq<string>) {
    && t.index.Keys == Projection(t).Keys
    && forall s, c | s in t.index && 0 <= c < INDEXED_COLUMNS ::
         tokenize(Column(t.index[s], c)) == tokenize(Column(Projection(t)[s], c))
  }

  predicate Sound(t: Tables, tokenize: string -> seq<string>) {
    ReferencesResolve(t) && LedgerResolves(t) && PointersNameFlags(t) && NothingMissing(t) && IndexReadsTheSame(t, tokenize)
  }

  predicate SameVocabularyOf(a: set<Instance>, b: set<Instance>, s: nat) {
    forall i | i in a + b :: i.doc == s ==> i in a && i in b
  }

  // Equal vocabularies of one row mean equal term sequences, column by column.
  lemma InstancesDetermineTerms(a: map<nat, IndexRow>, b: map<nat, IndexRow>, tokenize: string -> seq<string>, s: nat)
    requires s in a && s in b
    ensures SameVocabularyOf(Instances(a, tokenize), Instances(b, tokenize), s)
            <==> (forall c :: 0 <= c < INDEXED_COLUMNS ==> tokenize(Column(a[s], c)) == tokenize(Column(b[s], c)))
  {
    if SameVocabularyOf(Instances(a, tokenize), Instances(b, tokenize), s) {
      forall c | 0 <= c < INDEXED_COLUMNS
        ensures tokenize(Column(a[s], c)) == tokenize(Column(b[s], c))
      {
        SameTerms(a, b, tokenize, s, c);
      }
    }
  }

  lemma SameTerms(a: map<nat, IndexRow>, b: map<nat, IndexRow>, tokenize: string -> seq<string>, s: nat, c: nat)
    requires s in a && s in b && c < INDEXED_COLUMNS
    requires SameVocabularyOf(Instances(a, tokenize), Instances(b, tokenize), s)
    ensures tokenize(Column(a[s], c)) == tokenize(Column(b[s], c))
  {
    TermsIncluded(a, b, tokenize, s, c);
    TermsIncluded(b, a, tokenize, s, c);
  }

  lemma TermsIncluded(a: map<nat, IndexRow>, b: map<nat, IndexRow>, tokenize: string -> seq<string>, s: nat, c: nat)
    requires s in a && s in b && c < INDEXED_COLUMNS
    requires SameVocabularyOf(Instances(a, tokenize), Instances(b, tokenize), s)
    ensures tokenize(Column(a[s], c)) <= tokenize(Column(b[s], c))
  {
    var x := tokenize(Column(a[s], c));
    forall i: nat | i < |x|
      ensures i < |tokenize(Column(b[s], c))| && x[i] == tokenize(Column(b[s], c))[i]
    {
      TermIncluded(a, b, tokenize, s, c, i);
    }
    if |x| > 0 {
      TermIncluded(a, b, tokenize, s, c, |x| - 1);
    }
  }

  lemma TermIncluded(a: map<nat, IndexRow>, b: map<nat, IndexRow>, tokenize: string -> seq<string>, s: nat, c: nat, i: nat)
    requires s in a && s in b && c < INDEXED_COLUMNS && i < |tokenize(Column(a[s], c))|
    requires SameVocabularyOf(Instances(a, tokenize), Instances(b, tokenize), s)
    ensures i < |tokenize(Column(b[s], c))| && tokenize(Column(a[s], c))[i] == tokenize(Column(b[s], c))[i]
  {
    assert Instance(tokenize(Column(a[s], c))[i], s, c, i) in Instances(a, tokenize);
  }

  lemma NoMismatches(t: Tables, tokenize: string -> seq<string>)
    requires t.index.Keys == Projection(t).Keys
    ensures ContentMismatches(t, tokenize) == {} <==> IndexReadsTheSame(t, tokenize)
  {
    var actual, expected := Instances(t.index, tokenize), Instances(Projection(t), tokenize);
    forall s | s in t.index
      ensures s in ContentMismatches(t, tokenize) <==>
                !SameVocabularyOf(actual, expected, s)
    {
      if !SameVocabularyOf(actual, expected, s) {
        var i: Instance :| i in actual + expected && i.doc == s && (i in actual) != (i in expected);
        assert i in (actual - expected) + (expected - actual);
      }
    }
    forall s | s in t.index
      ensures s !in ContentMismatches(t, tokenize) <==>
                forall c :: 0 <= c < INDEXED_COLUMNS ==>
                  tokenize(Column(t.index[s], c)) == tokenize(Column(Projection(t)[s], c))
    {
      InstancesDetermineTerms(t.index, Projection(t), tokenize, s);
    }
    assert forall s :: s in ContentMismatches(t, tokenize) ==> s in t.index;
  }

  lemma NoIds(ids: set<nat>)
    ensures Ids(ids) == {} <==> ids == {}
  {
    if i :| i in ids {
      assert Numbered(i) in Ids(ids);
    }
  }

  lemma NoCatalogForeignKeyRows(t: Tables)
    ensures (ForeignKeyRows(t, SourceOfDocument) == {} == ForeignKeyRows(t, DocumentOfVersion) == ForeignKeyRows(t, VersionOfSection))
            <==> ReferencesResolve(t)
  {
    var documents := set d | d in t.documents && t.documents[d].sourceId !in t.sources;
    var versions := set v | v in t.versions && t.versions[v].documentId !in t.documents;
    var sections := set s | s in t.sections && t.sections[s].versionId !in t.versions;
    hide Ids;
    NoIds(documents);
    NoIds(versions);
    NoIds(sections);
    assert documents == {} ==> forall d :: d in t.documents ==> d !in documents;
    assert versions == {} ==> forall v :: v in t.versions ==> v !in versions;
    assert sections == {} ==> forall s :: s in t.sections ==> s !in sections;
  }

  lemma NoAliasRows(t: Tables)
    ensures ForeignKeyRows(t, DocumentOfAlias) == {} <==> forall k :: k in t.aliases ==> k.documentId in t.documents
  {
    assert forall k :: k in t.aliases && k.documentId !in t.documents ==> AliasRow(k) in ForeignKeyRows(t, DocumentOfAlias);
  }

  lemma NoRunRows(t: Tables)
    ensures ForeignKeyRows(t, SourceOfRun) == {} <==>
              forall r :: r in t.runs && t.runs[r].sourceId.Some? ==> t.runs[r].sourceId.value in t.sources
  {
    var runs := set r | r in t.runs && t.runs[r].sourceId.Some? && t.runs[r].sourceId.value !in t.sources;
    hide Ids;
    NoIds(runs);
    assert runs == {} ==> forall r :: r in t.runs ==> r !in runs;
  }

  lemma NoEventRows(t: Tables)
    ensures (ForeignKeyRows(t, DocumentOfEvent) == {} == ForeignKeyRows(t, RunOfEvent)) <==>
              forall i :: 0 <= i < |t.events| ==> t.events[i].documentId in t.documents && t.events[i].runId in t.runs
  {
    var documents := set i: nat | i < |t.events| && t.events[i].documentId !in t.documents;
    var runs := set i: nat | i < |t.events| && t.events[i].runId !in t.runs;
    hide Ids;
    NoIds(documents);
    NoIds(runs);
    if documents == {} == runs {
      forall i | 0 <= i < |t.events|
        ensures t.events[i].documentId in t.documents && t.events[i].runId in t.runs
      {
        assert i !in documents && i !in runs;
      }
    }
  }

  lemma NoLedgerForeignKeyRows(t: Tables)
    ensures (&& ForeignKeyRows(t, DocumentOfAlias) == {} == ForeignKeyRows(t, SourceOfRun)
             && ForeignKeyRows(t, DocumentOfEvent) == {} == ForeignKeyRows(t, RunOfEvent))
            <==> LedgerResolves(t)
  {
    hide ForeignKeyRows;
    NoAliasRows(t);
    NoRunRows(t);
    NoEventRows(t);
  }

  lemma NoForeignKeyRows(t: Tables)
    ensures (forall foreignKey :: ForeignKeyRows(t, foreignKey) == {}) <==> ReferencesResolve(t) && LedgerResolves(t)
  {
    hide ForeignKeyRows, ReferencesResolve, LedgerResolves;
    NoCatalogForeignKeyRows(t);
    NoLedgerForeignKeyRows(t);
    forall foreignKey: ForeignKey | ReferencesResolve(t) && LedgerResolves(t)
      ensures ForeignKeyRows(t, foreignKey) == {}
    {
      match foreignKey
      case SourceOfDocument | DocumentOfVersion | VersionOfSection | DocumentOfAlias | SourceOfRun | DocumentOfEvent | RunOfEvent =>
    }
  }

  lemma EveryForeignKey(foreignKey: ForeignKey)
    ensures foreignKey in FOREIGN_KEYS
  {
    match foreignKey
    case SourceOfDocument => assert FOREIGN_KEYS[0] == foreignKey;
    case DocumentOfVersion => assert FOREIGN_KEYS[1] == foreignKey;
    case VersionOfSection => assert FOREIGN_KEYS[2] == foreignKey;
    case DocumentOfAlias => assert FOREIGN_KEYS[3] == foreignKey;
    case SourceOfRun => assert FOREIGN_KEYS[4] == foreignKey;
    case DocumentOfEvent => assert FOREIGN_KEYS[5] == foreignKey;
    case RunOfEvent => assert FOREIGN_KEYS[6] == foreignKey;
  }

  lemma NoPointerRows(t: Tables)
    requires ReferencesResolve(t)
    ensures PointingNowhere(t) == {} && PointingToUnflagged(t) == {} && FlaggedUnpointed(t) == {} <==> PointersNameFlags(t)
  {
    if PointingNowhere(t) == {} && PointingToUnflagged(t) == {} && FlaggedUnpointed(t) == {} {
      forall d | d in t.documents && t.documents[d].currentVersion.Some?
        ensures var v := t.documents[d].currentVersion.value;
                v in t.versions && t.versions[v].documentId == d && t.versions[v].isCurrent
      {
        assert d !in PointingNowhere(t) && d !in PointingToUnflagged(t);
      }
      forall v | v in t.versions && t.versions[v].isCurrent
        ensures t.documents[t.versions[v].documentId].currentVersion == Some(v)
      {
        assert v !in FlaggedUnpointed(t);
      }
    }
  }

  lemma NoMissingRows(t: Tables)
    requires ReferencesResolve(t) && PointersNameFlags(t)
    ensures ActiveWithoutVersion(t) == {} && WithoutSections(t) == {} <==> NothingMissing(t)
  {
    if ActiveWithoutVersion(t) == {} && WithoutSections(t) == {} {
      forall d | d in t.documents && t.documents[d].currentVersion.Some?
        ensures exists s :: s in t.sections && t.sections[s].versionId == t.documents[d].currentVersion.value
      {
        assert d !in WithoutSections(t);
        var own := SectionsOf(t, CurrentRow(t, d).value);
        assert own != {};
        var s :| s in own;
      }
      forall d | d in t.documents && t.documents[d].status.Active?
        ensures t.documents[d].currentVersion.Some?
      {
        assert d !in ActiveWithoutVersion(t);
      }
    } else if NothingMissing(t) {
      forall d | d in t.documents
        ensures d !in WithoutSections(t)
      {
        if CurrentRow(t, d).Some? {
          var s :| s in t.sections && t.sections[s].versionId == t.documents[d].currentVersion.value;
          assert s in SectionsOf(t, CurrentRow(t, d).value);
        }
      }
    }
  }

  lemma NoIndexRows(t: Tables)
    requires ReferencesResolve(t)
    ensures MissingFromIndex(t) == {} && OrphanedRows(t) == {} <==> t.index.Keys == Projection(t).Keys
  {
    forall s | s in t.sections
      ensures Orphaned(t, s) <==> !SearchableSection(t, s)
    {
    }
    assert forall s :: s in t.index ==> (Orphaned(t, s) <==> s !in Projection(t));
    if MissingFromIndex(t) == {} && OrphanedRows(t) == {} {
      forall s
        ensures s in t.index <==> s in Projection(t)
      {
        assert s !in MissingFromIndex(t) && s !in OrphanedRows(t);
      }
    }
  }

  // The check reports nothing exactly when the catalog is sound, on any tables whatever.
  lemma NothingReportedMeansSound(t: Tables, tokenize: string -> seq<string>, damaged: nat)
    ensures (forall issue :: !Reported(t, tokenize, damaged, issue)) <==> damaged == 0 && Sound(t, tokenize)
  {
    ReportedRows(t, tokenize, damaged);
    NoForeignKeyRows(t);
    hide ForeignKeyRows, LedgerResolves;
    if ReferencesResolve(t) {
      NoPointerRows(t);
      NoIndexRows(t);
      if PointersNameFlags(t) {
        NoMissingRows(t);
      }
      if t.index.Keys == Projection(t).Keys {
        NoMismatches(t, tokenize);
      }
    }
  }

  ghost predicate NoRows(t: Tables, tokenize: string -> seq<string>) {
    && (forall foreignKey: ForeignKey :: ForeignKeyRows(t, foreignKey) == {})
    && PointingNowhere(t) == {} && PointingToUnflagged(t) == {} && FlaggedUnpointed(t) == {}
    && ActiveWithoutVersion(t) == {} && WithoutSections(t) == {}
    && MissingFromIndex(t) == {} && OrphanedRows(t) == {} && ContentMismatches(t, tokenize) == {}
  }

  lemma ReportedRows(t: Tables, tokenize: string -> seq<string>, damaged: nat)
    ensures (forall issue :: !Reported(t, tokenize, damaged, issue)) <==> damaged == 0 && NoRows(t, tokenize)
  {
    hide ForeignKeyRows, Rows;
    assert Reported(t, tokenize, damaged, Issue(SqliteIntegrityCheckFailed, None, Numbered(0))) <==> damaged > 0;
    forall code: IssueCode, row
      ensures !code.SqliteIntegrityCheckFailed? && !code.SqliteForeignKeyCheckFailed? ==>
                (Reported(t, tokenize, damaged, Issue(code, None, row)) <==> row in Ids(Rows(t, tokenize, code)))
    {
    }
    forall foreignKey: ForeignKey, row
      ensures Reported(t, tokenize, damaged, Issue(SqliteForeignKeyCheckFailed, Some(foreignKey), row))
              <==> row in ForeignKeyRows(t, foreignKey)
    {
    }
    NoCheckRows(t, tokenize);
    if forall issue :: !Reported(t, tokenize, damaged, issue) {
      forall code: IssueCode
        ensures Rows(t, tokenize, code) == {}
      {
        assert forall row :: row !in Ids(Rows(t, tokenize, code));
        NoIds(Rows(t, tokenize, code));
      }
      forall foreignKey: ForeignKey
        ensures ForeignKeyRows(t, foreignKey) == {}
      {
        assert forall row :: row !in ForeignKeyRows(t, foreignKey);
      }
      NoRowsOfAnyCode(t, tokenize);
    } else if damaged == 0 && NoRows(t, tokenize) {
      var issue :| Reported(t, tokenize, damaged, issue);
      RowsOfEveryCode(t, tokenize, issue.code);
      NoIds(Rows(t, tokenize, issue.code));
    }
  }

  // SQLite's own checks have no query of their own here.
  lemma NoCheckRows(t: Tables, tokenize: string -> seq<string>)
    ensures Rows(t, tokenize, SqliteIntegrityCheckFailed) == {} == Rows(t, tokenize, SqliteForeignKeyCheckFailed)
  {
  }

  lemma RowsOfEveryCode(t: Tables, tokenize: string -> seq<string>, code: IssueCode)
    requires NoRows(t, tokenize)
    ensures Rows(t, tokenize, code) == {}
  {
  }

  lemma NoRowsOfAnyCode(t: Tables, tokenize: string -> seq<string>)
    requires forall code: IssueCode :: Rows(t, tokenize, code) == {}
    requires forall foreignKey: ForeignKey :: ForeignKeyRows(t, foreignKey) == {}
    ensures NoRows(t, tokenize)
  {
    hide ForeignKeyRows, PointingNowhere, PointingToUnflagged, FlaggedUnpointed, ActiveWithoutVersion, WithoutSections,
         MissingFromIndex, OrphanedRows, ContentMismatches;
    assert Rows(t, tokenize, ActiveDocumentWithoutCurrentVersion) == {} == Rows(t, tokenize, CurrentVersionMissingOrWrongDocument);
    assert Rows(t, tokenize, CurrentVersionNotMarkedCurrent) == {} == Rows(t, tokenize, CurrentVersionWithoutSections);
    assert Rows(t, tokenize, CurrentVersionFlagNotPointed) == {} == Rows(t, tokenize, CurrentSectionMissingFromFts);
    assert Rows(t, tokenize, FtsEntryContentMismatch) == {} == Rows(t, tokenize, FtsEntryOrphaned);
  }

  /*** The check itself ***/

  predicate DistinctIssues(issues: seq<Issue>) {
    forall i, j :: 0 <= i < j < |issues| ==> issues[i] != issues[j]
  }

  // The issues grew by one a row, each with this code, and by nothing else.
  ghost predicate Appended(before: seq<Issue>, issues: seq<Issue>, code: IssueCode, foreignKey: Option<ForeignKey>, rows: set<Row>) {
    && DistinctIssues(issues)
    && forall issue :: issue in issues <==> issue in before || (issue.code == code && issue.foreignKey == foreignKey && issue.row in rows)
  }

  method AppendIssues(before: seq<Issue>, code: IssueCode, foreignKey: Option<ForeignKey>, rows: set<Row>) returns (issues: seq<Issue>)
    requires DistinctIssues(before) && forall issue :: issue in before ==> issue.code != code || issue.foreignKey != foreignKey
    ensures Appended(before, issues, code, foreignKey, rows)
  {
    issues := before;
    var pending := rows;
    while pending != {}
      invariant pending <= rows && Appended(before, issues, code, foreignKey, rows - pending)
    {
      var row :| row in pending;
      pending := pending - {row};
      issues := issues + [Issue(code, foreignKey, row)];
    }
    assert rows - pending == rows;
  }

  // The query joins sections, versions and documents, but not sources.
  predicate CurrentlyStored(t: Tables, s: nat) {
    && s in t.sections && t.sections[s].versionId in t.versions
    && var v := t.sections[s].versionId;
       t.versions[v].isCurrent && t.versions[v].documentId in t.documents
       && t.documents[t.versions[v].documentId].currentVersion == Some(v)
  }

  function CountsOf(t: Tables): Counts {
    Counts(|t.sources|, |set s | s in t.sources && t.sources[s].enabled|, |t.documents|,
           |set d | d in t.documents && t.documents[d].status.Active?|,
           |set s | s in t.sections && CurrentlyStored(t, s)|, |t.index|)
  }

  // The counts, in terms of the rows; a current section is one whose version is flagged current and
  // pointed to.
  predicate CountsRows(counts: Counts, t: Tables) {
    && counts.sources == |t.sources| && counts.documents == |t.documents| && counts.indexedSections == |t.index|
    && counts.enabledSources == |set s | s in t.sources && t.sources[s].enabled|
    && counts.activeDocuments == |set d | d in t.documents && t.documents[d].status == Active|
    && counts.currentSections ==
         |set s | s in t.sections && t.sections[s].versionId in t.versions
                  && var version := t.versions[t.sections[s].versionId];
                     && version.isCurrent && version.documentId in t.documents
                     && t.documents[version.documentId].currentVersion == Some(t.sections[s].versionId)|
  }

  lemma CountedExactly(t: Tables)
    ensures CountsRows(CountsOf(t), t)
  {
    var stored := set s | s in t.sections && CurrentlyStored(t, s);
    var counted := set s | s in t.sections && t.sections[s].versionId in t.versions
                           && var version := t.versions[t.sections[s].versionId];
                              && version.isCurrent && version.documentId in t.documents
                              && t.documents[version.documentId].currentVersion == Some(t.sections[s].versionId);
    assert stored == counted;
    assert (set d | d in t.documents && t.documents[d].status.Active?) == (set d | d in t.documents && t.documents[d].status == Active);
  }

  lemma FlawsExactly(t: Tables, tokenize: string -> seq<string>, damaged: nat)
    ensures forall issue :: Reported(t, tokenize, damaged, issue) <==> IsFlaw(t, tokenize, damaged, issue)
  {
    hide Reported, IsFlaw;
    forall issue
      ensures Reported(t, tokenize, damaged, issue) <==> IsFlaw(t, tokenize, damaged, issue)
    {
      ReportedExactly(t, tokenize, damaged, issue);
    }
  }

  // The issues are those reported under the given codes, each once.
  ghost predicate Covers(issues: seq<Issue>, t: Tables, tokenize: string -> seq<string>, damaged: nat, codes: set<IssueCode>) {
    && DistinctIssues(issues)
    && forall issue :: issue in issues <==> Reported(t, tokenize, damaged, issue) && issue.code in codes
  }

  method AppendForeignKeyIssues(t: Tables, before: seq<Issue>, tokenize: string -> seq<string>, damaged: nat)
    returns (issues: seq<Issue>)
    requires Covers(before, t, tokenize, damaged, {SqliteIntegrityCheckFailed})
    ensures Covers(issues, t, tokenize, damaged, {SqliteIntegrityCheckFailed, SqliteForeignKeyCheckFailed})
  {
    hide ForeignKeyRows;
    issues := before;
    for i := 0 to |FOREIGN_KEYS|
      invariant DistinctIssues(issues)
      invariant forall issue :: issue in issues <==>
        Reported(t, tokenize, damaged, issue)
        && (issue.code.SqliteIntegrityCheckFailed? || (issue.code.SqliteForeignKeyCheckFailed? && issue.foreignKey.value in FOREIGN_KEYS[..i]))
    {
      issues := AppendIssues(issues, SqliteForeignKeyCheckFailed, Some(FOREIGN_KEYS[i]), ForeignKeyRows(t, FOREIGN_KEYS[i]));
    }
    forall foreignKey: ForeignKey
      ensures foreignKey in FOREIGN_KEYS[..|FOREIGN_KEYS|]
    {
      EveryForeignKey(foreignKey);
    }
  }

  method AppendRows(t: Tables, before: seq<Issue>, tokenize: string -> seq<string>, damaged: nat,
                       code: IssueCode, rows: set<nat>, ghost codes: set<IssueCode>)
    returns (issues: seq<Issue>)
    requires Covers(before, t, tokenize, damaged, codes) && code !in codes
    requires !code.SqliteIntegrityCheckFailed? && !code.SqliteForeignKeyCheckFailed? && rows == Rows(t, tokenize, code)
    ensures Covers(issues, t, tokenize, damaged, codes + {code})
  {
    issues := AppendIssues(before, code, None, Ids(rows));
  }

  // Each issue of the tables is reported once, and nothing else is.
  method VerifyCatalogIntegrity(database: CatalogDatabase, tokenize: string -> seq<string>, damaged: nat) returns (report: Report)
    ensures report.counts == CountsOf(database.Tables())
    ensures CountsRows(report.counts, database.Tables())
    ensures DistinctIssues(report.issues)
    ensures forall issue :: issue in report.issues <==> Reported(database.Tables(), tokenize, damaged, issue)
    ensures forall issue :: issue in report.issues <==> IsFlaw(database.Tables(), tokenize, damaged, issue)
    ensures report.issues == [] <==> damaged == 0 && Sound(database.Tables(), tokenize)
  {
    hide Reported, IsFlaw, Sound, CountsOf, CountsRows;
    var t := database.Tables();
    var issues := AppendSqliteIssues(t, tokenize, damaged);
    issues := AppendForeignKeyIssues(t, issues, tokenize, damaged);
    ghost var codes := {SqliteIntegrityCheckFailed, SqliteForeignKeyCheckFailed};
    issues := AppendRows(t, issues, tokenize, damaged, ActiveDocumentWithoutCurrentVersion, ActiveWithoutVersion(t), codes);
    codes := codes + {ActiveDocumentWithoutCurrentVersion};
    issues := AppendRows(t, issues, tokenize, damaged, CurrentVersionMissingOrWrongDocument, PointingNowhere(t), codes);
    codes := codes + {CurrentVersionMissingOrWrongDocument};
    issues := AppendRows(t, issues, tokenize, damaged, CurrentVersionNotMarkedCurrent, PointingToUnflagged(t), codes);
    codes := codes + {CurrentVersionNotMarkedCurrent};
    issues := AppendRows(t, issues, tokenize, damaged, CurrentVersionWithoutSections, WithoutSections(t), codes);
    codes := codes + {CurrentVersionWithoutSections};
    issues := AppendRows(t, issues, tokenize, damaged, CurrentVersionFlagNotPointed, FlaggedUnpointed(t), codes);
    codes := codes + {CurrentVersionFlagNotPointed};
    issues := AppendRows(t, issues, tokenize, damaged, CurrentSectionMissingFromFts, MissingFromIndex(t), codes);
    codes := codes + {CurrentSectionMissingFromFts};
    issues := AppendRows(t, issues, tokenize, damaged, FtsEntryContentMismatch, ContentMismatches(t, tokenize), codes);
    codes := codes + {FtsEntryContentMismatch};
    issues := AppendRows(t, issues, tokenize, damaged, FtsEntryOrphaned, OrphanedRows(t), codes);
    codes := codes + {FtsEntryOrphaned};
    NothingReportedMeansSound(t, tokenize, damaged);
    forall code: IssueCode ensures code in codes {
      EveryCode(code);
    }
    assert issues != [] ==> issues[0] in issues;
    FlawsExactly(t, tokenize, damaged);
    CountedExactly(t);
    report := Report(CountsOf(t), issues);
  }

  lemma EveryCode(code: IssueCode)
    ensures code in {SqliteIntegrityCheckFailed, SqliteForeignKeyCheckFailed,
                     ActiveDocumentWithoutCurrentVersion, CurrentVersionMissingOrWrongDocument, CurrentVersionNotMarkedCurrent,
                     CurrentVersionWithoutSections, CurrentVersionFlagNotPointed, CurrentSectionMissingFromFts,
                     FtsEntryContentMismatch, FtsEntryOrphaned}
  {
  }

  method AppendSqliteIssues(t: Tables, tokenize: string -> seq<string>, damaged: nat) returns (issues: seq<Issue>)
    ensures Covers(issues, t, tokenize, damaged, {SqliteIntegrityCheckFailed})
  {
    issues := [];
    for i := 0 to damaged
      invariant DistinctIssues(issues)
      invariant forall issue :: issue in issues <==> issue.code.SqliteIntegrityCheckFailed? && issue.foreignKey.None? && issue.row.Numbered? && issue.row.id < i
    {
      issues := issues + [Issue(SqliteIntegrityCheckFailed, None, Numbered(i))];
    }
  }
}
