// The search history: appends that prune by age and by count, and pages followed by their cursor
// while more entries arrive.
module SearchHistory {
  import opened Prelude
  import opened Texts

  datatype Entry = Entry(requestId: string, tool: string, query: string, executedAt: int, status: string, cacheStatus: Option<string>)

  datatype Record = Record(requestId: string, tool: string, query: string, status: string, cacheStatus: Option<string>)

  datatype Query = Query(tool: Option<string>, status: Option<string>, cacheStatus: Option<string>,
                         from: Option<int>, until: Option<int>, queryContains: Option<string>)

  datatype Retention = Retention(days: nat, maxEntries: nat)

  datatype Page = Page(ids: seq<nat>, total: nat, nextBeforeId: Option<nat>)

  const DAY_MS := 86_400_000

  function Cutoff(retention: Retention, now: int): int {
    now - retention.days * DAY_MS
  }

  /*** Appending ***/

  function EntryOf(record: Record, now: int): Entry {
    Entry(record.requestId, record.tool, record.query, now, record.status, record.cacheStatus)
  }

  function NewerIds(ids: set<nat>, id: nat): set<nat> {
    set n | n in ids && n > id
  }

  // What the two DELETE statements leave: recent enough, and fewer than maxEntries newer ids.
  function Pruned(rows: map<nat, Entry>, retention: Retention, now: int): map<nat, Entry> {
    var recent := map id | id in rows && rows[id].executedAt >= Cutoff(retention, now) :: rows[id];
    map id | id in recent && |NewerIds(recent.Keys, id)| < retention.maxEntries :: recent[id]
  }

  datatype Refusal = RequestIdRequired | QueryRequired | RequestIdTaken

  predicate HasRequest(rows: map<nat, Entry>, requestId: string) {
    exists id :: id in rows && rows[id].requestId == requestId
  }

  // Request ids are unique among the rows stored, expired ones included.
  ghost function RefusalOf(rows: map<nat, Entry>, record: Record): Option<Refusal> {
    if Spaces(record.requestId) then Some(RequestIdRequired)
    else if Spaces(record.query) then Some(QueryRequired)
    else if HasRequest(rows, record.requestId) then Some(RequestIdTaken)
    else None
  }

  // A refused append changes nothing: the transaction is rolled back.
  ghost function Appended(rows: map<nat, Entry>, record: Record, retention: Retention, now: int): map<nat, Entry> {
    if RefusalOf(rows, record).Some? then rows
    else Pruned(rows[NextRowId(rows.Keys) := EntryOf(record, now)], retention, now)
  }

  ghost predicate UniqueRequests(rows: map<nat, Entry>) {
    forall a, b :: a in rows && b in rows && rows[a].requestId == rows[b].requestId ==> a == b
  }

  // Rows are never changed, only added with larger ids or removed, and some id stays as large as any was.
  ghost predicate Evolved(rows: map<nat, Entry>, later: map<nat, Entry>) {
    && (forall id :: id in later && id in rows ==> later[id] == rows[id])
    && (forall id, k :: id in later && id !in rows && k in rows ==> id > k)
    && (forall k :: k in rows ==> exists id :: id in later && id >= k)
  }

  lemma PrunedIsPart(rows: map<nat, Entry>, retention: Retention, now: int)
    ensures var kept := Pruned(rows, retention, now);
            forall id :: id in kept ==> id in rows && kept[id] == rows[id]
  {
  }

  lemma NewestIsKept(rows: map<nat, Entry>, retention: Retention, now: int, id: nat)
    requires retention.maxEntries >= 1 && id in rows && rows[id].executedAt >= Cutoff(retention, now)
    requires forall k :: k in rows ==> k <= id
    ensures id in Pruned(rows, retention, now)
  {
    var recent := map k | k in rows && rows[k].executedAt >= Cutoff(retention, now) :: rows[k];
    assert NewerIds(recent.Keys, id) == {};
  }

  // The newest row always stays, so ids are never handed out again, nor is a request stored twice.
  lemma AppendedEvolves(rows: map<nat, Entry>, record: Record, retention: Retention, now: int)
    requires retention.maxEntries >= 1
    ensures Evolved(rows, Appended(rows, record, retention, now))
    ensures RefusalOf(rows, record).None? ==> NextRowId(rows.Keys) in Appended(rows, record, retention, now)
    ensures UniqueRequests(rows) ==> UniqueRequests(Appended(rows, record, retention, now))
  {
    hide Pruned, Spaces;
    if RefusalOf(rows, record).None? {
      var added := rows[NextRowId(rows.Keys) := EntryOf(record, now)];
      assert forall k :: k in added ==> k in rows.Keys || k == NextRowId(rows.Keys);
      NewestIsKept(added, retention, now, NextRowId(rows.Keys));
      PrunedIsPart(added, retention, now);
    }
  }

  lemma EvolvedTwice(a: map<nat, Entry>, b: map<nat, Entry>, c: map<nat, Entry>)
    requires Evolved(a, b) && Evolved(b, c)
    ensures Evolved(a, c)
    ensures forall id :: id in a && id in c ==> id in b
  {
    forall id | id in a && id in c
      ensures id in b
    {
      var k :| k in b && k >= id;
    }
    forall id, k | id in c && id !in a && k in a
      ensures id > k
    {
      var l :| l in b && l >= k;
    }
    forall k | k in a
      ensures exists id :: id in c && id >= k
    {
      var l :| l in b && l >= k;
      var id :| id in c && id >= l;
    }
  }

  lemma {:induction false} KeptIds(ids: set<nat>, keep: nat)
    ensures |set id | id in ids && |NewerIds(ids, id)| < keep| == if |ids| < keep then |ids| else keep
    decreases |ids|
  {
    var kept := set id | id in ids && |NewerIds(ids, id)| < keep;
    if ids == {} {
      assert kept == {};
    } else {
      var m := Smallest(ids);
      var rest := ids - {m};
      KeptIds(rest, keep);
      var keptRest := set id | id in rest && |NewerIds(rest, id)| < keep;
      forall id | id in rest
        ensures NewerIds(ids, id) == NewerIds(rest, id)
      {
      }
      assert NewerIds(ids, m) == rest;
      if |rest| < keep {
        assert kept == keptRest + {m};
      } else {
        assert kept == keptRest;
      }
    }
  }

  lemma {:induction false} Smallest(ids: set<nat>) returns (m: nat)
    requires ids != {}
    ensures m in ids && forall id :: id in ids && id != m ==> id > m
    decreases |ids|
  {
    var k :| k in ids;
    var rest := ids - {k};
    if rest == {} {
      m := k;
      assert forall id :: id in ids ==> id == k || id in rest;
    } else {
      var r := Smallest(rest);
      m := if k < r then k else r;
      assert forall id :: id in ids ==> id == k || id in rest;
    }
  }

  // Of the entries young enough, an append keeps exactly the newest maxEntries.
  lemma PruningKeepsTheNewest(rows: map<nat, Entry>, retention: Retention, now: int)
    ensures var recent := set id | id in rows && rows[id].executedAt >= now - retention.days * 86_400_000;
            var kept := Pruned(rows, retention, now).Keys;
            && kept <= recent && |kept| == (if |recent| < retention.maxEntries then |recent| else retention.maxEntries)
            && forall a, b :: a in kept && b in recent - kept ==> a > b
  {
    var recent := set id | id in rows && rows[id].executedAt >= Cutoff(retention, now);
    var recentRows := map id | id in rows && rows[id].executedAt >= Cutoff(retention, now) :: rows[id];
    assert recentRows.Keys == recent;
    KeptIds(recent, retention.maxEntries);
    var kept := Pruned(rows, retention, now).Keys;
    assert kept == set id | id in recent && |NewerIds(recent, id)| < retention.maxEntries;
    forall a, b | a in kept && b in recent - kept
      ensures a > b
    {
      if a <= b {
        SubsetSize(NewerIds(recent, b), NewerIds(recent, a));
      }
    }
  }

  lemma SubsetSize(a: set<nat>, b: set<nat>)
    requires a <= b
    ensures |a| <= |b|
  {
    assert b == a + (b - a);
  }

  /*** Pages ***/

  // instr(text, part) > 0.
  predicate ContainsText(text: string, part: string) {
    part <= text || (text != "" && ContainsText(text[1..], part))
  }

  predicate Matches(e: Entry, query: Query, cutoff: int) {
    && e.executedAt >= cutoff
    && (query.tool.Some? ==> e.tool == query.tool.value)
    && (query.status.Some? ==> e.status == query.status.value)
    && (query.cacheStatus.Some? ==> e.cacheStatus == query.cacheStatus)
    && (query.from.Some? ==> e.executedAt >= query.from.value)
    && (query.until.Some? ==> e.executedAt <= query.until.value)
    && (query.queryContains.Some? ==> ContainsText(Lower(e.query), Lower(query.queryContains.value)))
  }

  // What the query asks for, field by field; an entry without a cache status has none to match.
  predicate Asked(e: Entry, query: Query) {
    && query.tool in {None, Some(e.tool)} && query.status in {None, Some(e.status)} && query.cacheStatus in {None, e.cacheStatus}
    && (query.from == None || query.from.value <= e.executedAt) && (query.until == None || e.executedAt <= query.until.value)
    && (query.queryContains == None || Occurs(Lower(query.queryContains.value), Lower(e.query)))
  }

  predicate Occurs(part: string, text: string) {
    exists i :: 0 <= i <= |text| && part <= text[i..]
  }

  lemma {:induction false} OccursExactly(text: string, part: string)
    ensures ContainsText(text, part) <==> Occurs(part, text)
    decreases |text|
  {
    if part <= text {
      assert text[0..] == text;
    } else if text != "" {
      OccursExactly(text[1..], part);
      if i :| 0 <= i <= |text[1..]| && part <= text[1..][i..] {
        assert text[i + 1..] == text[1..][i..];
      }
      assert text[0..] == text;
      if i :| 0 < i <= |text| && part <= text[i..] {
        assert text[1..][i - 1..] == text[i..];
      }
    }
  }

  lemma MatchesExactly(e: Entry, query: Query, cutoff: int)
    ensures Matches(e, query, cutoff) <==> Asked(e, query) && cutoff <= e.executedAt
  {
    if query.queryContains.Some? {
      OccursExactly(Lower(e.query), Lower(query.queryContains.value));
    }
  }

  // The entries asked for that are not past their retention.
  function Due(rows: map<nat, Entry>, query: Query, retention: Retention, now: int): set<nat> {
    set id | id in rows && Asked(rows[id], query) && now <= rows[id].executedAt + retention.days * 86_400_000
  }

  lemma VisibleExactly(rows: map<nat, Entry>, query: Query, before: Option<nat>, retention: Retention, now: int)
    ensures Visible(rows, query, before, Cutoff(retention, now))
            == set id | id in Due(rows, query, retention, now) && (before.Some? ==> id < before.value)
  {
    hide Asked, Matches;
    forall id | id in rows
      ensures Matches(rows[id], query, Cutoff(retention, now)) <==>
                Asked(rows[id], query) && now <= rows[id].executedAt + retention.days * 86_400_000
    {
      MatchesExactly(rows[id], query, Cutoff(retention, now));
    }
  }

  function Visible(rows: map<nat, Entry>, query: Query, before: Option<nat>, cutoff: int): set<nat> {
    set id | id in rows && Matches(rows[id], query, cutoff) && (before.Some? ==> id < before.value)
  }

  predicate Descending(ids: seq<nat>) {
    forall i, j :: 0 <= i < j < |ids| ==> ids[i] > ids[j]
  }

  function AsSet(ids: seq<nat>): set<nat> {
    set id | id in ids
  }

  // ids are the n largest of the candidates, largest first (all of them when there are no more).
  ghost predicate Newest(ids: seq<nat>, candidates: set<nat>, n: nat) {
    && Descending(ids) && AsSet(ids) <= candidates
    && (|ids| < n ==> AsSet(ids) == candidates) && |ids| <= n
    && forall c, i :: c in candidates && c !in ids && 0 <= i < |ids| ==> c < ids[i]
  }

  ghost predicate IsPage(page: Page, rows: map<nat, Entry>, query: Query, before: Option<nat>, limit: nat, cutoff: int) {
    var candidates := Visible(rows, query, before, cutoff);
    && limit >= 1 && page.total == |Visible(rows, query, None, cutoff)|
    && Newest(page.ids, candidates, limit)
    && (page.nextBeforeId.None? ==> AsSet(page.ids) == candidates)
    && (page.nextBeforeId.Some? ==> |page.ids| == limit && page.nextBeforeId.value == page.ids[limit - 1] && AsSet(page.ids) < candidates)
  }

  class SearchHistoryRepository {
    const retention: Retention
    var rows: map<nat, Entry>

    constructor (retention: Retention)
      ensures this.retention == retention && rows == map[]
    {
      this.retention := retention;
      rows := map[];
    }

    method Append(record: Record, now: int) returns (id: nat, refusal: Option<Refusal>)
      requires retention.maxEntries >= 1
      modifies this
      ensures refusal == RefusalOf(old(rows), record)
      ensures rows == Appended(old(rows), record, retention, now)
      ensures refusal.Some? ==> rows == old(rows)
      ensures refusal.None? ==> id == NextRowId(old(rows).Keys) && id in rows
      ensures refusal.None? ==> rows[id] == Entry(record.requestId, record.tool, record.query, now, record.status, record.cacheStatus)
      ensures refusal.None? ==> |rows| <= retention.maxEntries
      ensures refusal == Some(RequestIdTaken) ==> exists k :: k in rows && rows[k].requestId == record.requestId
      ensures refusal.None? ==> forall k :: k in old(rows) ==> old(rows)[k].requestId != record.requestId
    {
      hide Pruned, Spaces;
      id, refusal := 0, None;
      if Spaces(record.requestId) {
        refusal := Some(RequestIdRequired);
      } else if Spaces(record.query) {
        refusal := Some(QueryRequired);
      } else if exists k :: k in rows && rows[k].requestId == record.requestId {
        refusal := Some(RequestIdTaken);
      } else {
        id := InsertAndPrune(EntryOf(record, now), now);
      }
    }

    // One transaction: insert, delete the expired, delete the overflow.
    method InsertAndPrune(entry: Entry, now: int) returns (id: nat)
      requires retention.maxEntries >= 1 && entry.executedAt >= Cutoff(retention, now)
      modifies this
      ensures id == NextRowId(old(rows).Keys) && rows == Pruned(old(rows)[id := entry], retention, now)
      ensures id in rows && rows[id] == entry && |rows| <= retention.maxEntries
    {
      id := AllocateRowId(rows.Keys);
      rows := rows[id := entry];
      PruningKeepsTheNewest(rows, retention, now);
      NewestIsKept(rows, retention, now, id);
      rows := map k | k in rows && rows[k].executedAt >= Cutoff(retention, now) :: rows[k];
      rows := map k | k in rows && |NewerIds(rows.Keys, k)| < retention.maxEntries :: rows[k];
      assert |rows| == |rows.Keys|;
    }

    // ORDER BY id DESC LIMIT n.
    static method SelectNewest(candidates: set<nat>, n: nat) returns (ids: seq<nat>)
      ensures Newest(ids, candidates, n)
    {
      ids := [];
      var rest := candidates;
      while |ids| < n && rest != {}
        invariant |ids| <= n && Descending(ids)
        invariant AsSet(ids) + rest == candidates && AsSet(ids) !! rest
        invariant forall c, i :: c in rest && 0 <= i < |ids| ==> c < ids[i]
        decreases rest
      {
        var m := Largest(rest);
        AppendedElement(ids, m);
        ids := ids + [m];
        rest := rest - {m};
      }
    }

    static lemma AppendedElement(ids: seq<nat>, m: nat)
      ensures AsSet(ids + [m]) == AsSet(ids) + {m}
    {
    }

    static method Largest(ids: set<nat>) returns (m: nat)
      requires ids != {}
      ensures m in ids && forall id :: id in ids ==> id <= m
    {
      m :| m in ids;
      var pending := ids - {m};
      while pending != {}
        invariant pending <= ids && m in ids
        invariant forall id :: id in ids && id !in pending ==> id <= m
      {
        var k :| k in pending;
        pending := pending - {k};
        if k > m {
          m := k;
        }
      }
    }

    // One row more than the limit is read to see whether another page follows.
    method List(query: Query, before: Option<nat>, limit: nat, now: int) returns (page: Page)
      requires limit >= 1
      ensures IsPage(page, rows, query, before, limit, Cutoff(retention, now))
      ensures page.total == |Due(rows, query, retention, now)| && |page.ids| <= limit
      ensures forall id :: id in page.ids ==> id in Due(rows, query, retention, now) && (before.Some? ==> id < before.value)
      ensures page.nextBeforeId.None? ==>
                forall id :: id in Due(rows, query, retention, now) && (before.Some? ==> id < before.value) ==> id in page.ids
      ensures page.nextBeforeId.Some? ==>
                forall id :: id in Due(rows, query, retention, now) && page.nextBeforeId.value <= id && (before.Some? ==> id < before.value) ==>
                  id in page.ids
    {
      hide Due;
      VisibleExactly(rows, query, None, retention, now);
      VisibleExactly(rows, query, before, retention, now);
      var cutoff := Cutoff(retention, now);
      var total := |Visible(rows, query, None, cutoff)|;
      var candidates := Visible(rows, query, before, cutoff);
      var ids := SelectNewest(candidates, limit + 1);
      if |ids| > limit {
        FirstOfNewest(ids, candidates, limit);
        page := Page(ids[..limit], total, Some(ids[limit - 1]));
      } else {
        page := Page(ids, total, None);
      }
      InSet(page.ids);
      assert Visible(rows, query, None, cutoff) == Due(rows, query, retention, now);
    }

    static lemma InSet(ids: seq<nat>)
      ensures forall id :: id in ids <==> id in AsSet(ids)
    {
    }

    static lemma FirstOfNewest(ids: seq<nat>, candidates: set<nat>, limit: nat)
      requires Newest(ids, candidates, limit + 1) && |ids| == limit + 1
      ensures Newest(ids[..limit], candidates, limit) && AsSet(ids[..limit]) < candidates
    {
      assert ids[limit] in AsSet(ids) && ids[limit] !in ids[..limit];
      assert ids == ids[..limit] + [ids[limit]];
      AppendedElement(ids[..limit], ids[limit]);
    }
  }

  /*** Following the cursor ***/

  // What happens before a page is read: entries arrive, then the clock shows `now`.
  datatype Arrival = Arrival(record: Record, at: int)
  datatype Visit = Visit(arrivals: seq<Arrival>, now: int, page: Page)

  ghost function Arrived(rows: map<nat, Entry>, arrivals: seq<Arrival>, retention: Retention): map<nat, Entry>
    decreases |arrivals|
  {
    if arrivals == [] then rows
    else Appended(Arrived(rows, arrivals[..|arrivals| - 1], retention), arrivals[|arrivals| - 1].record, retention, arrivals[|arrivals| - 1].at)
  }

  // Pages read one after the other, each from the cursor of the one before, whatever arrives between.
  ghost predicate Followed(rows: map<nat, Entry>, visits: seq<Visit>, query: Query, before: Option<nat>, limit: nat, retention: Retention)
    decreases |visits|
  {
    visits != [] ==>
      var now := Arrived(rows, visits[0].arrivals, retention);
      && IsPage(visits[0].page, now, query, before, limit, Cutoff(retention, visits[0].now))
      && (|visits| > 1 ==> visits[0].page.nextBeforeId.Some? && visits[0].now <= visits[1].now)
      && Followed(now, visits[1..], query, visits[0].page.nextBeforeId, limit, retention)
  }

  function Returned(visits: seq<Visit>): seq<nat> {
    if visits == [] then [] else visits[0].page.ids + Returned(visits[1..])
  }

  ghost function LastRows(rows: map<nat, Entry>, visits: seq<Visit>, retention: Retention): map<nat, Entry>
    decreases |visits|
  {
    if visits == [] then rows else LastRows(Arrived(rows, visits[0].arrivals, retention), visits[1..], retention)
  }

  lemma {:induction false} ArrivalsEvolve(rows: map<nat, Entry>, arrivals: seq<Arrival>, retention: Retention)
    requires retention.maxEntries >= 1
    ensures Evolved(rows, Arrived(rows, arrivals, retention))
    decreases |arrivals|
  {
    if arrivals != [] {
      var last := |arrivals| - 1;
      var middle := Arrived(rows, arrivals[..last], retention);
      ArrivalsEvolve(rows, arrivals[..last], retention);
      AppendedEvolves(middle, arrivals[last].record, retention, arrivals[last].at);
      EvolvedTwice(rows, middle, Arrived(rows, arrivals, retention));
    }
  }

  lemma {:induction false} VisitsEvolve(rows: map<nat, Entry>, visits: seq<Visit>, retention: Retention)
    requires retention.maxEntries >= 1
    ensures Evolved(rows, LastRows(rows, visits, retention))
    decreases |visits|
  {
    if visits != [] {
      var now := Arrived(rows, visits[0].arrivals, retention);
      ArrivalsEvolve(rows, visits[0].arrivals, retention);
      VisitsEvolve(now, visits[1..], retention);
      EvolvedTwice(rows, now, LastRows(now, visits[1..], retention));
    }
  }

  // Ids only go down along the pages, so none is returned twice.
  lemma {:induction false} ReturnedDescends(rows: map<nat, Entry>, visits: seq<Visit>, query: Query, before: Option<nat>,
                                            limit: nat, retention: Retention)
    requires Followed(rows, visits, query, before, limit, retention)
    ensures Descending(Returned(visits))
    ensures before.Some? ==> forall i :: 0 <= i < |Returned(visits)| ==> Returned(visits)[i] < before.value
    decreases |visits|
  {
    if visits != [] {
      var page, rest := visits[0].page, Returned(visits[1..]);
      ReturnedDescends(Arrived(rows, visits[0].arrivals, retention), visits[1..], query, page.nextBeforeId, limit, retention);
      assert forall i :: 0 <= i < |page.ids| ==> page.ids[i] in AsSet(page.ids);
      if rest != [] {
        assert page.nextBeforeId.Some?;
        forall i, j | 0 <= i < |page.ids| && 0 <= j < |rest|
          ensures page.ids[i] > rest[j]
        {
          assert page.ids[i] >= page.ids[limit - 1] > rest[j];
        }
      }
      assert Returned(visits) == page.ids + rest;
    }
  }

  lemma LastClock(rows: map<nat, Entry>, visits: seq<Visit>, query: Query, before: Option<nat>, limit: nat, retention: Retention)
    requires Followed(rows, visits, query, before, limit, retention) && visits != []
    ensures visits[0].now <= visits[|visits| - 1].now
    decreases |visits|
  {
    if |visits| > 1 {
      LastClock(Arrived(rows, visits[0].arrivals, retention), visits[1..], query, visits[0].page.nextBeforeId, limit, retention);
    }
  }

  lemma OnPageOrBelow(page: Page, rows: map<nat, Entry>, query: Query, before: Option<nat>, limit: nat, cutoff: int, id: nat)
    requires IsPage(page, rows, query, before, limit, cutoff) && id in Visible(rows, query, before, cutoff)
    ensures id in page.ids || (page.nextBeforeId.Some? && id < page.nextBeforeId.value)
  {
    assert id !in page.ids ==> id !in AsSet(page.ids);
  }

  lemma StillMatches(e: Entry, query: Query, earlier: int, later: int)
    requires earlier <= later && Matches(e, query, later)
    ensures Matches(e, query, earlier)
  {
  }

  // An entry below the cursor that still matches when the last page is read is on one of the pages.
  lemma {:induction false} NothingIsSkipped(rows: map<nat, Entry>, visits: seq<Visit>, query: Query, before: Option<nat>, limit: nat,
                                            retention: Retention, id: nat)
    requires retention.maxEntries >= 1 && visits != [] && Followed(rows, visits, query, before, limit, retention)
    requires visits[|visits| - 1].page.nextBeforeId.None?
    requires id in Arrived(rows, visits[0].arrivals, retention) && (before.Some? ==> id < before.value)
    requires id in LastRows(rows, visits, retention)
             && Matches(LastRows(rows, visits, retention)[id], query, Cutoff(retention, visits[|visits| - 1].now))
    ensures id in Returned(visits)
    decreases |visits|
  {
    hide IsPage, Matches, Arrived, Evolved;
    var now, page := Arrived(rows, visits[0].arrivals, retention), visits[0].page;
    VisitsEvolve(now, visits[1..], retention);
    LastClock(rows, visits, query, before, limit, retention);
    StillTheSame(now, LastRows(now, visits[1..], retention), id);
    StillMatches(now[id], query, Cutoff(retention, visits[0].now), Cutoff(retention, visits[|visits| - 1].now));
    OnPageOrBelow(page, now, query, before, limit, Cutoff(retention, visits[0].now), id);
    if id !in page.ids {
      assert |visits| > 1;
      var next := Arrived(now, visits[1..][0].arrivals, retention);
      ArrivalsEvolve(now, visits[1..][0].arrivals, retention);
      VisitsEvolve(next, visits[1..][1..], retention);
      EvolvedTwice(now, next, LastRows(next, visits[1..][1..], retention));
      assert visits[1..][|visits| - 2] == visits[|visits| - 1];
      NothingIsSkipped(now, visits[1..], query, page.nextBeforeId, limit, retention, id);
    }
  }

  lemma StillTheSame(rows: map<nat, Entry>, later: map<nat, Entry>, id: nat)
    requires Evolved(rows, later) && id in rows && id in later
    ensures later[id] == rows[id]
  {
  }

  // Following the cursor to the end returns every entry that matched at the first page and still
  // matches at the last exactly once, whatever was appended and pruned in between.
  lemma PagesReturnEachOnce(rows: map<nat, Entry>, visits: seq<Visit>, query: Query, limit: nat, retention: Retention)
    requires retention.maxEntries >= 1 && visits != [] && Followed(rows, visits, query, None, limit, retention)
    requires visits[|visits| - 1].page.nextBeforeId.None?
    ensures Descending(Returned(visits))
    ensures var last := LastRows(rows, visits, retention);
            forall id :: id in Arrived(rows, visits[0].arrivals, retention) && id in last
                         && Matches(last[id], query, Cutoff(retention, visits[|visits| - 1].now)) ==>
                           multiset(Returned(visits))[id] == 1
  {
    ReturnedDescends(rows, visits, query, None, limit, retention);
    var last := LastRows(rows, visits, retention);
    forall id | id in Arrived(rows, visits[0].arrivals, retention) && id in last
                && Matches(last[id], query, Cutoff(retention, visits[|visits| - 1].now))
      ensures multiset(Returned(visits))[id] == 1
    {
      NothingIsSkipped(rows, visits, query, None, limit, retention, id);
      OnceInDescending(Returned(visits), id);
    }
  }

  lemma {:induction false} OnceInDescending(ids: seq<nat>, id: nat)
    requires Descending(ids) && id in ids
    ensures multiset(ids)[id] == 1
  {
    assert ids == [ids[0]] + ids[1..];
    assert multiset(ids) == multiset{ids[0]} + multiset(ids[1..]);
    if ids[0] == id {
      assert id !in ids[1..];
    } else {
      OnceInDescending(ids[1..], id);
    }
  }
}
