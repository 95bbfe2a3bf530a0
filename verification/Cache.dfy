// The cache repository: reads with expiry and stale retention, writes that prune in the same
// transaction, and batched eviction over both tables.
module Cache {
  import opened Prelude
  import opened CacheRows
  import RobotsOctets

  const CACHE_EVICTION_BATCH_SIZE := 256

  // What a read hands out; the payload stands for the value it encodes.
  datatype Record = Record(value: string, createdAt: int, expiresAt: int, stale: bool, validators: Validators)

  // A caller's decoder: None rejects the stored value.
  type Decoder = string -> Option<string>

  function ByteLength(text: string): nat {
    if text == "" then 0
    else
      var c := text[0] as int;
      (if c < 0x80 then 1 else if c < 0x800 then 2 else if c < 0x10000 then 3 else 4) + ByteLength(text[1..])
  }

  // A row counts as many bytes as its value has in UTF-8.
  lemma BytesAreUtf8(first: char, rest: string)
    ensures ByteLength([first] + rest) == (if first as int < 0x80 then 1 else |RobotsOctets.Utf8(first)|) + ByteLength(rest)
    ensures ByteLength("") == 0
  {
    assert ([first] + rest)[1..] == rest;
  }

  function NewRow(value: string, ttlMs: int, validators: Validators, now: int): Row {
    Row(value, now, now + ttlMs, now, ByteLength(value), validators)
  }

  /*** What each operation does to the rows ***/

  predicate PastRetention(row: Row, limits: Limits, now: int) {
    row.expiresAt + limits.staleRetentionMs <= now
  }

  function Retained(rows: map<Slot, Row>, limits: Limits, now: int): map<Slot, Row> {
    map s | s in rows && !PastRetention(rows[s], limits, now) :: rows[s]
  }

  ghost function Pruned(rows: map<Slot, Row>, limits: Limits, now: int): map<Slot, Row> {
    Evict(Retained(rows, limits, now), limits)
  }

  datatype Reading = Reading(rows: map<Slot, Row>, record: Option<Record>)

  function Read(rows: map<Slot, Row>, slot: Slot, allowStale: bool, decode: Decoder, limits: Limits, now: int): Reading {
    if slot !in rows then Reading(rows, None)
    else
      var row := rows[slot];
      var stale := row.expiresAt <= now;
      if stale && !allowStale then Reading(rows, None)
      else if PastRetention(row, limits, now) || decode(row.payload).None? then Reading(rows - {slot}, None)
      else Reading(rows[slot := row.(lastAccessedAt := now)],
                   Some(Record(decode(row.payload).value, row.createdAt, row.expiresAt, stale, row.validators)))
  }

  // A read is answered: there is a row, still fresh or wanted although it is stale, not past its
  // retention, and the caller can decode it.
  predicate Readable(rows: map<Slot, Row>, slot: Slot, allowStale: bool, decode: Decoder, limits: Limits, now: int) {
    && slot in rows && (allowStale || now < rows[slot].expiresAt)
    && now < rows[slot].expiresAt + limits.staleRetentionMs && decode(rows[slot].payload).Some?
  }

  // The rows a DELETE by expiry leaves in one table, and those of the other.
  function Unexpired(rows: map<Slot, Row>, kind: Kind, cutoff: int): map<Slot, Row> {
    map s | s in rows && !(s.kind == kind && rows[s].expiresAt <= cutoff) :: rows[s]
  }

  lemma UnexpiredIsMinus(rows: map<Slot, Row>, kind: Kind, cutoff: int, expired: set<Slot>)
    requires expired == set s | s in rows && s.kind == kind && rows[s].expiresAt <= cutoff
    ensures Unexpired(rows, kind, cutoff) == rows - expired == rows - ({} + expired)
  {
    assert {} + expired == expired;
  }

  class CacheDatabase {
    var rows: map<Slot, Row>
    // The single row of cache_usage, kept by triggers on both tables.
    var entryCount: int
    var totalBytes: int

    ghost predicate UsageIsExact()
      reads this
    {
      entryCount == |rows| && totalBytes == TotalBytes(rows)
    }

    constructor ()
      ensures rows == map[] && UsageIsExact()
    {
      rows := map[];
      entryCount, totalBytes := 0, 0;
    }

    method Delete(slot: Slot) returns (changes: nat)
      requires UsageIsExact()
      modifies this
      ensures UsageIsExact() && rows == old(rows) - {slot} && changes == if slot in old(rows) then 1 else 0
    {
      changes := 0;
      if slot in rows {
        TotalBytesWithout(rows, slot);
        entryCount, totalBytes := entryCount - 1, totalBytes - rows[slot].sizeBytes;
        rows := rows - {slot};
        changes := 1;
      }
      assert slot !in old(rows) ==> old(rows) - {slot} == old(rows);
    }

    // INSERT ... ON CONFLICT DO UPDATE fires the insert trigger or the size trigger.
    method Upsert(slot: Slot, row: Row)
      requires UsageIsExact()
      modifies this
      ensures UsageIsExact() && rows == old(rows)[slot := row]
    {
      TotalBytesWith(rows, slot, row);
      if slot in rows {
        TotalBytesWithout(rows, slot);
        totalBytes := totalBytes + row.sizeBytes - rows[slot].sizeBytes;
        assert |rows[slot := row]| == |rows| by {
          assert rows[slot := row].Keys == rows.Keys;
        }
      } else {
        entryCount, totalBytes := entryCount + 1, totalBytes + row.sizeBytes;
        assert rows - {slot} == rows;
        assert |rows[slot := row]| == |rows| + 1 by {
          assert rows[slot := row].Keys == rows.Keys + {slot};
        }
      }
      rows := rows[slot := row];
    }

    method Touch(slot: Slot, now: int)
      requires UsageIsExact() && slot in rows
      modifies this`rows
      ensures UsageIsExact() && rows == old(rows)[slot := old(rows)[slot].(lastAccessedAt := now)]
    {
      TotalBytesWith(rows, slot, rows[slot].(lastAccessedAt := now));
      TotalBytesWithout(rows, slot);
      assert rows[slot := rows[slot].(lastAccessedAt := now)].Keys == rows.Keys;
      rows := rows[slot := rows[slot].(lastAccessedAt := now)];
    }

    // DELETE ... WHERE expires_at <= cutoff, on one table.
    method DeleteExpiredRows(kind: Kind, cutoff: int) returns (changes: nat)
      requires UsageIsExact()
      modifies this
      ensures UsageIsExact() && rows == Unexpired(old(rows), kind, cutoff)
      ensures changes == |old(rows)| - |rows|
    {
      ghost var before, gone := rows, {};
      hide Unexpired, TotalBytes, UsageIsExact;
      changes := 0;
      var pending := set s | s in rows && s.kind == kind && rows[s].expiresAt <= cutoff;
      UnexpiredIsMinus(before, kind, cutoff, pending);
      assert before - gone == before;
      while pending != {}
        invariant UsageIsExact() && rows == before - gone
        invariant pending !! gone && Unexpired(before, kind, cutoff) == before - (gone + pending)
        invariant changes == |before| - |rows|
      {
        var s :| s in pending;
        MinusTwice(before, gone, {s});
        OneMoreGone(gone, pending, s);
        var deleted := Delete(s);
        changes := changes + deleted;
        pending, gone := pending - {s}, gone + {s};
      }
      assert gone + pending == gone;
    }

    static lemma OneMoreGone(gone: set<Slot>, pending: set<Slot>, s: Slot)
      requires s in pending && pending !! gone
      ensures gone + pending == (gone + {s}) + (pending - {s})
    {
    }

    // ORDER BY last_accessed_at, created_at, kind, cache_key LIMIT limit.
    method EvictionCandidates(limit: nat) returns (slots: seq<Slot>)
      ensures slots == Ordered(rows)[..if limit < |rows| then limit else |rows|]
    {
      var rest := rows;
      slots := [];
      while |slots| < limit && rest != map[]
        invariant |slots| + |rest| == |rows| && |slots| <= limit
        invariant Ordered(rows) == slots + Ordered(rest)
        decreases |rest|
      {
        var s := First(rest);
        NextCandidate(slots, rest, s);
        slots := slots + [s];
        rest := rest - {s};
      }
      assert Ordered(rows)[..|slots|] == slots;
    }

    static lemma NextCandidate(slots: seq<Slot>, rest: map<Slot, Row>, s: Slot)
      requires rest != map[] && IsLeast(rest, s)
      ensures slots + Ordered(rest) == (slots + [s]) + Ordered(rest - {s})
      ensures |rest - {s}| == |rest| - 1
    {
      LeastIsUnique(rest, s, Least(rest));
      assert Ordered(rest) == [s] + Ordered(rest - {s});
    }

    static method First(rows: map<Slot, Row>) returns (s: Slot)
      requires rows != map[]
      ensures IsLeast(rows, s)
    {
      assert rows.Keys != {};
      s :| s in rows.Keys;
      var pending := rows.Keys - {s};
      while pending != {}
        invariant pending <= rows.Keys && s in rows && s !in pending
        invariant forall o :: o in rows && o !in pending && o != s ==> Before(rows, s, o)
      {
        var o :| o in pending;
        pending := pending - {o};
        BeforeIsTotal(rows, s, o);
        if Before(rows, o, s) {
          forall p | p in rows && p !in pending && p != o
            ensures Before(rows, o, p)
          {
            if p != s {
              BeforeIsTransitive(rows, o, s, p);
            }
          }
          s := o;
        }
      }
    }
  }

  datatype Batch = Batch(changes: nat, remainingEntries: int, remainingBytes: int)

  class CacheRepository {
    const database: CacheDatabase
    const limits: Limits

    constructor (database: CacheDatabase, limits: Limits)
      ensures this.database == database && this.limits == limits
    {
      this.database := database;
      this.limits := limits;
    }

    // Deletes candidates in turn until the running totals are within the limits.
    // One more row dropped takes eviction one step further.
    static lemma DropTheNext(before: map<Slot, Row>, i: nat, limits: Limits)
      requires i < |before| && !Fits(Dropped(before, i), limits)
      ensures i < |Ordered(before)|
      ensures var rows, slot := Dropped(before, i), Ordered(before)[i];
              && slot in rows && |rows| == |before| - i && Dropped(before, i + 1) == rows - {slot} && |rows - {slot}| == |before| - i - 1
              && Evict(rows, limits) == Evict(rows - {slot}, limits)
              && TotalBytes(rows - {slot}) == TotalBytes(rows) - rows[slot].sizeBytes
    {
      hide Ordered, Dropped, TotalBytes, Fits;
      NextToDrop(before, i);
      OrderOfTheRest(before, i);
      OrderOfTheRest(before, i + 1);
      TotalBytesWithout(Dropped(before, i), Ordered(before)[i]);
    }

    method EvictBatch(slots: seq<Slot>, remainingEntries: int, remainingBytes: int) returns (batch: Batch)
      requires database.UsageIsExact()
      requires remainingEntries == database.entryCount && remainingBytes == database.totalBytes
      requires |slots| <= |database.rows| && slots == Ordered(database.rows)[..|slots|]
      modifies database
      ensures database.UsageIsExact()
      ensures batch.remainingEntries == database.entryCount && batch.remainingBytes == database.totalBytes
      ensures Evict(database.rows, limits) == Evict(old(database.rows), limits)
      ensures batch.changes <= |slots| && |database.rows| == |old(database.rows)| - batch.changes
      ensures batch.changes == |slots| || Fits(database.rows, limits)
    {
      ghost var before := database.rows;
      hide Ordered, Dropped, TotalBytes, Least, Evict;
      var entries, bytes := remainingEntries, remainingBytes;
      var changes := 0;
      DropNone(before);
      var i := 0;
      while i < |slots| && !WithinLimits(entries, bytes, limits)
        invariant 0 <= i <= |slots| <= |before|
        invariant forall k :: i <= k < |slots| ==> slots[k] == Ordered(before)[k]
        invariant database.UsageIsExact() && database.rows == Dropped(before, i) && |database.rows| == |before| - i
        invariant entries == database.entryCount && bytes == database.totalBytes && changes == i
        invariant Evict(database.rows, limits) == Evict(before, limits)
      {
        var slot := slots[i];
        DropTheNext(before, i, limits);
        var size := database.rows[slot].sizeBytes;
        var deleted := database.Delete(slot);
        changes := changes + deleted;
        entries, bytes := entries - 1, bytes - size;
        i := i + 1;
      }
      batch := Batch(changes, entries, bytes);
    }

    method EvictOverflow() returns (changes: nat)
      requires database.UsageIsExact()
      modifies database
      ensures database.UsageIsExact() && database.rows == Evict(old(database.rows), limits)
      ensures changes == |old(database.rows)| - |database.rows|
    {
      var entries, bytes := database.entryCount, database.totalBytes;
      changes := 0;
      NothingFits(limits);
      while !WithinLimits(entries, bytes, limits)
        invariant database.UsageIsExact() && entries == database.entryCount && bytes == database.totalBytes
        invariant Evict(database.rows, limits) == Evict(old(database.rows), limits)
        invariant changes == |old(database.rows)| - |database.rows|
        decreases |database.rows|
      {
        var slots := database.EvictionCandidates(CACHE_EVICTION_BATCH_SIZE);
        if |slots| == 0 {
          break;
        }
        var batch := EvictBatch(slots, entries, bytes);
        changes := changes + batch.changes;
        entries, bytes := batch.remainingEntries, batch.remainingBytes;
        if batch.changes == 0 {
          break;
        }
      }
    }

    method PruneSync(now: int) returns (changes: nat)
      requires database.UsageIsExact()
      modifies database
      ensures database.UsageIsExact() && database.rows == Pruned(old(database.rows), limits, now)
      ensures changes == |old(database.rows)| - |database.rows|
      ensures Fits(database.rows, limits)
    {
      var search := database.DeleteExpiredRows(Search, now - limits.staleRetentionMs);
      var content := database.DeleteExpiredRows(Content, now - limits.staleRetentionMs);
      changes := search + content;
      assert database.rows == Retained(old(database.rows), limits, now);
      ghost var retained := database.rows;
      ghost var _ := EvictDropsShortestPrefix(retained, limits);
      if !WithinLimits(database.entryCount, database.totalBytes, limits) {
        var evicted := EvictOverflow();
        changes := changes + evicted;
      }
    }

    // The write and the pruning are one transaction; the new row itself may be evicted.
    method Set(slot: Slot, value: string, ttlMs: int, validators: Validators, now: int) returns (stored: bool)
      requires database.UsageIsExact()
      modifies database
      ensures stored && database.UsageIsExact() && Fits(database.rows, limits)
      ensures database.rows == Pruned(old(database.rows)[slot := NewRow(value, ttlMs, validators, now)], limits, now)
    {
      database.Upsert(slot, NewRow(value, ttlMs, validators, now));
      var _ := PruneSync(now);
      stored := true;
    }

    method Get(slot: Slot, allowStale: bool, decode: Decoder, now: int) returns (record: Option<Record>)
      requires database.UsageIsExact()
      modifies database
      ensures database.UsageIsExact()
      ensures Reading(database.rows, record) == Read(old(database.rows), slot, allowStale, decode, limits, now)
      ensures record.Some? <==> Readable(old(database.rows), slot, allowStale, decode, limits, now)
      ensures record.Some? ==>
                var row := old(database.rows)[slot];
                && database.rows == old(database.rows)[slot := Row(row.payload, row.createdAt, row.expiresAt, now, row.sizeBytes, row.validators)]
                && record.value == Record(decode(row.payload).value, row.createdAt, row.expiresAt, now >= row.expiresAt, row.validators)
      ensures record.None? ==>
                database.rows == if slot in old(database.rows) && (now < old(database.rows)[slot].expiresAt || allowStale)
                                 then old(database.rows) - {slot} else old(database.rows)
    {
      if slot !in database.rows {
        return None;
      }
      var row := database.rows[slot];
      var stale := row.expiresAt <= now;
      if stale && !allowStale {
        return None;
      }
      if row.expiresAt + limits.staleRetentionMs <= now {
        var _ := database.Delete(slot);
        return None;
      }
      var value := decode(row.payload);
      if value.None? {
        var _ := database.Delete(slot);
        return None;
      }
      database.Touch(slot, now);
      record := Some(Record(value.value, row.createdAt, row.expiresAt, stale, row.validators));
    }

    method DeleteExpired(now: int) returns (changes: nat)
      requires database.UsageIsExact()
      modifies database
      ensures database.UsageIsExact() && database.rows == Pruned(old(database.rows), limits, now)
      ensures changes == |old(database.rows)| - |database.rows|
    {
      changes := PruneSync(now);
    }
  }

  /*** Histories ***/

  datatype Op =
    | SetOp(slot: Slot, value: string, ttlMs: int, validators: Validators, now: int)
    | GetOp(slot: Slot, allowStale: bool, decode: Decoder, now: int)
    | DeleteExpiredOp(now: int)

  ghost function Step(rows: map<Slot, Row>, op: Op, limits: Limits): map<Slot, Row> {
    match op
    case SetOp(slot, value, ttlMs, validators, now) =>
      Pruned(rows[slot := NewRow(value, ttlMs, validators, now)], limits, now)
    case GetOp(slot, allowStale, decode, now) => Read(rows, slot, allowStale, decode, limits, now).rows
    case DeleteExpiredOp(now) => Pruned(rows, limits, now)
  }

  ghost function After(ops: seq<Op>, limits: Limits): map<Slot, Row>
    decreases |ops|
  {
    if ops == [] then map[] else Step(After(ops[..|ops| - 1], limits), ops[|ops| - 1], limits)
  }

  // The last write to the slot.
  predicate IsLatestSet(ops: seq<Op>, slot: Slot, i: nat) {
    && i < |ops| && ops[i].SetOp? && ops[i].slot == slot
    && forall j :: i < j < |ops| && ops[j].SetOp? ==> ops[j].slot != slot
  }

  // The row is the one that write made, except for when it was last read.
  predicate WrittenBy(row: Row, op: Op)
    requires op.SetOp?
  {
    && row.payload == op.value && row.createdAt == op.now && row.expiresAt == op.now + op.ttlMs
    && row.sizeBytes == ByteLength(op.value) && row.validators == op.validators
  }

  lemma EvictKeepsRows(rows: map<Slot, Row>, limits: Limits, s: Slot)
    requires s in Evict(rows, limits)
    ensures s in rows && Evict(rows, limits)[s] == rows[s]
  {
    var n := EvictDropsShortestPrefix(rows, limits);
  }

  // A step leaves in a slot what its own write put there, or the row that was there before.
  lemma StepKeepsOrWrites(rows: map<Slot, Row>, op: Op, limits: Limits, slot: Slot)
    requires slot in Step(rows, op, limits)
    ensures if op.SetOp? && op.slot == slot then WrittenBy(Step(rows, op, limits)[slot], op)
            else slot in rows && Step(rows, op, limits)[slot] == rows[slot].(lastAccessedAt := Step(rows, op, limits)[slot].lastAccessedAt)
  {
    match op {
      case SetOp(s, value, ttlMs, validators, now) =>
        EvictKeepsRows(Retained(rows[s := NewRow(value, ttlMs, validators, now)], limits, now), limits, slot);
      case GetOp(_, _, _, _) =>
      case DeleteExpiredOp(now) => EvictKeepsRows(Retained(rows, limits, now), limits, slot);
    }
  }

  lemma LaterOtherSets(ops: seq<Op>, slot: Slot, i: nat)
    requires ops != [] && IsLatestSet(ops[..|ops| - 1], slot, i)
    requires !(ops[|ops| - 1].SetOp? && ops[|ops| - 1].slot == slot)
    ensures IsLatestSet(ops, slot, i)
  {
    var before := ops[..|ops| - 1];
    assert forall j :: 0 <= j < |before| ==> before[j] == ops[j];
  }

  // Every row there is was written by the last write to its slot.
  lemma {:induction false} RowsAreLatestSets(ops: seq<Op>, limits: Limits, slot: Slot)
    requires slot in After(ops, limits)
    ensures exists i :: 0 <= i < |ops| && IsLatestSet(ops, slot, i) && WrittenBy(After(ops, limits)[slot], ops[i])
    decreases |ops|
  {
    hide Step;
    var n := |ops| - 1;
    var op, rows := ops[n], After(ops[..n], limits);
    StepKeepsOrWrites(rows, op, limits, slot);
    if op.SetOp? && op.slot == slot {
      assert IsLatestSet(ops, slot, n) && WrittenBy(After(ops, limits)[slot], ops[n]);
    } else {
      RowsAreLatestSets(ops[..n], limits, slot);
      var i :| 0 <= i < n && IsLatestSet(ops[..n], slot, i) && WrittenBy(rows[slot], ops[..n][i]);
      LaterOtherSets(ops, slot, i);
    }
  }

  /*** Least recently used ***/

  // The operation writes the slot, or reads it and is answered.
  ghost predicate Uses(ops: seq<Op>, limits: Limits, slot: Slot, i: nat)
    requires i < |ops|
  {
    match ops[i]
    case SetOp(s, _, _, _, _) => s == slot
    case GetOp(s, allowStale, decode, now) => s == slot && Readable(After(ops[..i], limits), slot, allowStale, decode, limits, now)
    case DeleteExpiredOp(_) => false
  }

  ghost predicate LastUse(ops: seq<Op>, limits: Limits, slot: Slot, i: nat) {
    && i < |ops| && Uses(ops, limits, slot, i)
    && forall j: nat :: i < j < |ops| ==> !Uses(ops, limits, slot, j)
  }

  // The slot's last use was at this time.
  ghost predicate LastUsedAt(ops: seq<Op>, limits: Limits, slot: Slot, at: int) {
    exists i: nat :: LastUse(ops, limits, slot, i) && ops[i].now == at
  }

  lemma UsesOfPrefix(ops: seq<Op>, limits: Limits, slot: Slot, i: nat)
    requires i < |ops| - 1
    ensures Uses(ops, limits, slot, i) == Uses(ops[..|ops| - 1], limits, slot, i)
  {
    assert ops[..|ops| - 1][..i] == ops[..i];
  }

  lemma LaterUnused(ops: seq<Op>, limits: Limits, slot: Slot, at: int)
    requires ops != [] && LastUsedAt(ops[..|ops| - 1], limits, slot, at) && !Uses(ops, limits, slot, |ops| - 1)
    ensures LastUsedAt(ops, limits, slot, at)
  {
    hide Uses;
    var before := ops[..|ops| - 1];
    var i: nat :| LastUse(before, limits, slot, i) && before[i].now == at;
    forall j: nat | i <= j < |before|
      ensures Uses(ops, limits, slot, j) == Uses(before, limits, slot, j)
    {
      UsesOfPrefix(ops, limits, slot, j);
    }
    assert LastUse(ops, limits, slot, i);
  }

  lemma UsedNow(ops: seq<Op>, limits: Limits, slot: Slot)
    requires ops != [] && Uses(ops, limits, slot, |ops| - 1)
    ensures LastUsedAt(ops, limits, slot, ops[|ops| - 1].now)
  {
    assert LastUse(ops, limits, slot, |ops| - 1);
  }

  // The rows as the operation finds or puts them, before anything is pruned.
  ghost function Unpruned(rows: map<Slot, Row>, op: Op, limits: Limits): map<Slot, Row> {
    match op
    case SetOp(slot, value, ttlMs, validators, now) => rows[slot := NewRow(value, ttlMs, validators, now)]
    case GetOp(slot, allowStale, decode, now) => Read(rows, slot, allowStale, decode, limits, now).rows
    case DeleteExpiredOp(_) => rows
  }

  lemma StepPrunes(rows: map<Slot, Row>, op: Op, limits: Limits)
    ensures Step(rows, op, limits) == if op.GetOp? then Unpruned(rows, op, limits) else Pruned(Unpruned(rows, op, limits), limits, op.now)
  {
  }

  // When a row says it was last accessed is when its slot was last used.
  lemma {:induction false} LastAccessIsLastUse(ops: seq<Op>, limits: Limits, slot: Slot)
    requires slot in After(ops, limits)
    ensures LastUsedAt(ops, limits, slot, After(ops, limits)[slot].lastAccessedAt)
    decreases |ops|, 1
  {
    hide Evict, Retained, LastUsedAt;
    var n := |ops| - 1;
    var rows := Unpruned(After(ops[..n], limits), ops[n], limits);
    StepPrunes(After(ops[..n], limits), ops[n], limits);
    if !ops[n].GetOp? {
      PruningKeepsRows(rows, limits, ops[n].now, slot);
    }
    UnprunedAccess(ops, limits, slot);
  }

  lemma PruningKeepsRows(rows: map<Slot, Row>, limits: Limits, now: int, slot: Slot)
    requires slot in Pruned(rows, limits, now)
    ensures slot in rows && Pruned(rows, limits, now)[slot] == rows[slot]
  {
    EvictKeepsRows(Retained(rows, limits, now), limits, slot);
  }

  lemma {:induction false} UnprunedAccess(ops: seq<Op>, limits: Limits, slot: Slot)
    requires ops != []
    ensures var rows := Unpruned(After(ops[..|ops| - 1], limits), ops[|ops| - 1], limits);
            slot in rows ==> LastUsedAt(ops, limits, slot, rows[slot].lastAccessedAt)
    decreases |ops|, 0
  {
    hide LastUsedAt, Step;
    var n := |ops| - 1;
    var before := After(ops[..n], limits);
    if slot in Unpruned(before, ops[n], limits) {
      if Uses(ops, limits, slot, n) {
        UsedNow(ops, limits, slot);
      } else {
        LastAccessIsLastUse(ops[..n], limits, slot);
        LaterUnused(ops, limits, slot, before[slot].lastAccessedAt);
      }
    }
  }

  // What a write or a pruning evicts was last used no later than anything it keeps. The evicted row
  // was there before, or is the one just written, and was not past its retention.
  lemma LeastRecentlyUsedGoFirst(ops: seq<Op>, limits: Limits, gone: Slot, kept: Slot)
    requires ops != [] && !ops[|ops| - 1].GetOp?
    requires gone !in After(ops, limits) && kept in After(ops, limits)
    requires var op, before := ops[|ops| - 1], After(ops[..|ops| - 1], limits);
             if op.SetOp? && op.slot == gone then op.ttlMs + limits.staleRetentionMs > 0
             else gone in before && before[gone].expiresAt + limits.staleRetentionMs > op.now
    ensures exists a, b :: LastUsedAt(ops, limits, gone, a) && LastUsedAt(ops, limits, kept, b) && a <= b
  {
    hide LastUsedAt, Before;
    var n := |ops| - 1;
    var rows := Unpruned(After(ops[..n], limits), ops[n], limits);
    UnprunedAccess(ops, limits, gone);
    UnprunedAccess(ops, limits, kept);
    PruningKeepsRows(rows, limits, ops[n].now, kept);
    PruningDropsOldest(rows, limits, ops[n].now, gone, kept);
    assert rows[gone].lastAccessedAt <= rows[kept].lastAccessedAt;
  }

  // Pruning drops what is past its retention and, of the rest, no more than it must to be within the
  // limits: one of the rows it drops would not fit beside those it keeps.
  lemma PruningDropsNoMoreThanNeeded(rows: map<Slot, Row>, limits: Limits, now: int)
    ensures var after := Pruned(rows, limits, now);
            var alive := map s | s in rows && now < rows[s].expiresAt + limits.staleRetentionMs :: rows[s];
            && (forall s :: s in after ==> s in alive && after[s] == alive[s])
            && |after| <= limits.maxEntries && TotalBytes(after) <= limits.maxBytes
            && (after != alive ==>
                  exists s :: s in alive && s !in after
                              && (|after| + 1 > limits.maxEntries || TotalBytes(after) + alive[s].sizeBytes > limits.maxBytes))
  {
    hide Fits, Before;
    var alive := map s | s in rows && now < rows[s].expiresAt + limits.staleRetentionMs :: rows[s];
    assert alive == Retained(rows, limits, now);
    var after := Evict(alive, limits);
    var n := EvictDropsShortestPrefix(alive, limits);
    FitsMeans(after, limits);
    if n == 0 {
      DropNone(alive);
    } else {
      var s, fewer := Ordered(alive)[n - 1], Dropped(alive, n - 1);
      DroppedNext(alive, n - 1);
      NextToDrop(alive, n - 1);
      TotalBytesWithout(fewer, s);
      FitsMeans(fewer, limits);
      assert fewer.Keys == after.Keys + {s};
    }
  }

  // What is evicted comes first by last access, then creation, then content before search, then key.
  lemma PruningDropsOldest(rows: map<Slot, Row>, limits: Limits, now: int, gone: Slot, kept: Slot)
    requires gone in rows && now < rows[gone].expiresAt + limits.staleRetentionMs
    requires gone !in Pruned(rows, limits, now) && kept in Pruned(rows, limits, now)
    ensures kept in rows && rows[gone].lastAccessedAt <= rows[kept].lastAccessedAt
    ensures rows[gone].lastAccessedAt == rows[kept].lastAccessedAt ==> rows[gone].createdAt <= rows[kept].createdAt
    ensures rows[gone].lastAccessedAt == rows[kept].lastAccessedAt && rows[gone].createdAt == rows[kept].createdAt ==>
              if gone.kind != kept.kind then gone.kind == Content && kept.kind == Search else TextBefore(gone.key, kept.key)
  {
    EvictedComeFirst(Retained(rows, limits, now), limits, gone, kept);
    PruningKeepsRows(rows, limits, now, kept);
  }

  // A read that returns a record returns the last value written to the slot, marked stale exactly
  // when its time to live has passed, and never one past the stale retention.
  lemma ReadsReturnTheLatestSet(ops: seq<Op>, slot: Slot, allowStale: bool, decode: Decoder, limits: Limits, now: int)
    ensures var record := Read(After(ops, limits), slot, allowStale, decode, limits, now).record;
            record.Some? ==>
              exists i :: 0 <= i < |ops| && IsLatestSet(ops, slot, i)
                && Some(record.value.value) == decode(ops[i].value) && record.value.validators == ops[i].validators
                && record.value.createdAt == ops[i].now && record.value.expiresAt == ops[i].now + ops[i].ttlMs
                && (record.value.stale <==> now >= ops[i].now + ops[i].ttlMs)
                && (record.value.stale ==> allowStale)
                && now < ops[i].now + ops[i].ttlMs + limits.staleRetentionMs
  {
    if Read(After(ops, limits), slot, allowStale, decode, limits, now).record.Some? {
      RowsAreLatestSets(ops, limits, slot);
    }
  }

  // Pruning removes by age exactly the rows that no read, however lenient, would return.
  lemma PruningAgreesWithReading(rows: map<Slot, Row>, slot: Slot, limits: Limits, now: int)
    requires slot in rows
    ensures slot in Retained(rows, limits, now) <==>
              exists decode: Decoder :: Read(rows, slot, true, decode, limits, now).record.Some?
    ensures slot in Retained(rows, limits, now) <==> now < rows[slot].expiresAt + limits.staleRetentionMs
  {
    if slot in Retained(rows, limits, now) {
      var accept: Decoder := value => Some(value);
      assert Read(rows, slot, true, accept, limits, now).record.Some?;
    }
  }

  // A write is readable at once unless it was itself evicted, and then everything older was too.
  lemma WritesAreReadable(rows: map<Slot, Row>, slot: Slot, value: string, ttlMs: int, validators: Validators,
                          limits: Limits, now: int, other: Slot)
    requires ttlMs > 0
    ensures var written := rows[slot := NewRow(value, ttlMs, validators, now)];
            var after := Step(rows, SetOp(slot, value, ttlMs, validators, now), limits);
            if slot in after then
              Read(after, slot, false, v => Some(v), limits, now).record
                == Some(Record(value, now, now + ttlMs, false, validators))
            else other in after ==> other in written && Before(written, slot, other)
  {
    var written := rows[slot := NewRow(value, ttlMs, validators, now)];
    var retained := Retained(written, limits, now);
    if slot in Evict(retained, limits) {
      EvictKeepsRows(retained, limits, slot);
    } else if other in Evict(retained, limits) {
      EvictedComeFirst(retained, limits, slot, other);
    }
  }

  lemma ReadingKeepsLimits(rows: map<Slot, Row>, slot: Slot, allowStale: bool, decode: Decoder, limits: Limits, now: int)
    requires Fits(rows, limits)
    ensures Fits(Read(rows, slot, allowStale, decode, limits, now).rows, limits)
  {
    if slot in rows {
      TotalBytesWithout(rows, slot);
      TotalBytesWith(rows, slot, rows[slot].(lastAccessedAt := now));
      assert rows[slot := rows[slot].(lastAccessedAt := now)].Keys == rows.Keys;
    }
  }

  // After every history the two tables together are within the limits.
  lemma {:induction false} LimitsAlwaysHold(ops: seq<Op>, limits: Limits)
    ensures Fits(After(ops, limits), limits)
    ensures |After(ops, limits)| <= limits.maxEntries && TotalBytes(After(ops, limits)) <= limits.maxBytes
    decreases |ops|
  {
    FitsMeans(After(ops, limits), limits);
    hide Fits;
    if ops == [] {
      NothingFits(limits);
    } else {
      var op, rows := ops[|ops| - 1], After(ops[..|ops| - 1], limits);
      match op {
        case SetOp(s, value, ttlMs, validators, now) =>
          EvictedFits(Retained(rows[s := NewRow(value, ttlMs, validators, now)], limits, now), limits);
        case GetOp(slot, allowStale, decode, now) =>
          LimitsAlwaysHold(ops[..|ops| - 1], limits);
          ReadingKeepsLimits(rows, slot, allowStale, decode, limits, now);
        case DeleteExpiredOp(now) => EvictedFits(Retained(rows, limits, now), limits);
      }
    }
  }

  lemma EvictedFits(rows: map<Slot, Row>, limits: Limits)
    ensures Fits(Evict(rows, limits), limits)
  {
    var n := EvictDropsShortestPrefix(rows, limits);
  }

  lemma FitsMeans(rows: map<Slot, Row>, limits: Limits)
    ensures Fits(rows, limits) <==> |rows| <= limits.maxEntries && TotalBytes(rows) <= limits.maxBytes
  {
  }
}
