// What a search shows: which sections have an index row, and what its columns say.
module CatalogColumns {
  import opened Prelude
  import opened CatalogTables
  import opened CatalogInvariant

  // The section belongs to the current version of an active document of an enabled source.
  predicate Displayed(t: Tables, s: nat) {
    && s in t.sections && t.sections[s].versionId in t.versions
    && var version := t.versions[t.sections[s].versionId];
       && version.isCurrent && version.documentId in t.documents
       && var document := t.documents[version.documentId];
          && document.currentVersion == Some(t.sections[s].versionId) && document.status == Active
          && document.sourceId in t.sources && t.sources[document.sourceId].enabled
  }

  // The row of a section, column by column.
  predicate Shows(t: Tables, s: nat, row: IndexRow)
    requires Displayed(t, s)
  {
    var section := t.sections[s];
    var d := t.versions[section.versionId].documentId;
    && row.documentId == d
    && row.sourceKey == t.sources[t.documents[d].sourceId].key
    && row.language == t.documents[d].language
    && row.title == t.documents[d].title
    && row.heading == OrEmpty(section.heading)
    && row.headingPath == OrEmpty(section.headingPath)
    && row.content == section.content
  }

  function OrEmpty(text: Option<string>): string {
    match text
    case None => ""
    case Some(value) => value
  }

  // The index has a row for exactly these sections, and it says this.
  ghost predicate ShowsCatalog(t: Tables, index: map<nat, IndexRow>) {
    forall s :: (s in index <==> Displayed(t, s)) && (s in index ==> Shows(t, s, index[s]))
  }

  lemma RebuiltColumns(t: Tables)
    ensures ShowsCatalog(t, Projection(t))
  {
  }

  // An index agrees with a rebuild exactly if it shows the catalog.
  lemma AgreesExactly(t: Tables)
    ensures IndexAgrees(t) <==> ShowsCatalog(t, t.index)
  {
    RebuiltColumns(t);
    if ShowsCatalog(t, t.index) {
      forall s | s in t.index
        ensures s in Projection(t) && t.index[s] == Projection(t)[s]
      {
        SameRow(t, s, t.index[s], Projection(t)[s]);
      }
      assert t.index.Keys == Projection(t).Keys;
    }
  }

  lemma SameRow(t: Tables, s: nat, a: IndexRow, b: IndexRow)
    requires Displayed(t, s) && Shows(t, s, a) && Shows(t, s, b)
    ensures a == b
  {
  }
}
