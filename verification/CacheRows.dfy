// The rows of the two cache tables, their total order of eviction, and what eviction leaves.
module CacheRows {
  import opened Prelude

  // In the order SQLite compares the kind column: 'content' before 'search'.
  datatype Kind = Content | Search

  // A row's table and its primary key there.
  datatype Slot = Slot(kind: Kind, key: string)

  datatype Validators = Validators(etag: Option<string>, lastModified: Option<string>,
                                   contentHash: Option<string>, validatorUrl: Option<string>)

  datatype Row = Row(payload: string, createdAt: int, expiresAt: int, lastAccessedAt: int, sizeBytes: nat,
                     validators: Validators)

  datatype Limits = Limits(maxEntries: nat, maxBytes: nat, staleRetentionMs: nat)

  /*** The usage summary ***/

  ghost function TotalBytes(rows: map<Slot, Row>): nat
    decreases |rows|
  {
    if rows == map[] then 0
    else
      var s :| s in rows;
      rows[s].sizeBytes + TotalBytes(rows - {s})
  }

  lemma {:induction false} TotalBytesWithout(rows: map<Slot, Row>, s: Slot)
    requires s in rows
    ensures TotalBytes(rows) == rows[s].sizeBytes + TotalBytes(rows - {s})
    decreases |rows|
  {
    var k :| k in rows && TotalBytes(rows) == rows[k].sizeBytes + TotalBytes(rows - {k});
    if k != s {
      TotalBytesWithout(rows - {k}, s);
      TotalBytesWithout(rows - {s}, k);
      assert rows - {k} - {s} == rows - {s} - {k};
    }
  }

  lemma TotalBytesWith(rows: map<Slot, Row>, s: Slot, row: Row)
    ensures TotalBytes(rows[s := row]) == row.sizeBytes + TotalBytes(rows - {s})
  {
    TotalBytesWithout(rows[s := row], s);
    assert rows[s := row] - {s} == rows - {s};
  }

  predicate WithinLimits(entries: int, bytes: int, limits: Limits) {
    entries <= limits.maxEntries && bytes <= limits.maxBytes
  }

  ghost predicate Fits(rows: map<Slot, Row>, limits: Limits) {
    WithinLimits(|rows|, TotalBytes(rows), limits)
  }

  /*** Order of eviction ***/

  predicate TextBefore(a: string, b: string) {
    b != "" && (a == "" || a[0] < b[0] || (a[0] == b[0] && TextBefore(a[1..], b[1..])))
  }

  // The shorter comes first of a text and its continuation, and otherwise the first difference decides.
  lemma {:induction false} TextBeforeExactly(a: string, b: string)
    ensures TextBefore(a, b) <==>
              exists k :: 0 <= k <= |a| && k < |b| && a[..k] == b[..k] && (k < |a| ==> a[k] < b[k])
  {
    if TextBefore(a, b) {
      if a == "" || a[0] < b[0] {
        assert a[..0] == b[..0];
      } else {
        TextBeforeExactly(a[1..], b[1..]);
        var k :| 0 <= k <= |a[1..]| && k < |b[1..]| && a[1..][..k] == b[1..][..k] && (k < |a[1..]| ==> a[1..][k] < b[1..][k]);
        assert a[..k + 1] == [a[0]] + a[1..][..k] && b[..k + 1] == [b[0]] + b[1..][..k];
      }
    }
    if k :| 0 <= k <= |a| && k < |b| && a[..k] == b[..k] && (k < |a| ==> a[k] < b[k]) {
      if k > 0 {
        assert a[0] == a[..k][0] && b[0] == b[..k][0];
        assert a[1..][..k - 1] == a[..k][1..] && b[1..][..k - 1] == b[..k][1..];
        assert k - 1 < |a[1..]| ==> a[1..][k - 1] < b[1..][k - 1];
        TextBeforeExactly(a[1..], b[1..]);
      }
    }
  }

  predicate SlotBefore(a: Slot, b: Slot) {
    if a.kind != b.kind then a.kind.Content? else TextBefore(a.key, b.key)
  }

  // ORDER BY last_accessed_at, created_at, kind, cache_key.
  predicate Before(rows: map<Slot, Row>, a: Slot, b: Slot)
    requires a in rows && b in rows
  {
    if rows[a].lastAccessedAt != rows[b].lastAccessedAt then rows[a].lastAccessedAt < rows[b].lastAccessedAt
    else if rows[a].createdAt != rows[b].createdAt then rows[a].createdAt < rows[b].createdAt
    else SlotBefore(a, b)
  }

  lemma {:induction false} TextOrder(a: string, b: string)
    ensures !(TextBefore(a, b) && TextBefore(b, a)) && !TextBefore(a, a)
    ensures a == b || TextBefore(a, b) || TextBefore(b, a)
  {
    if a != "" && b != "" {
      TextOrder(a[1..], b[1..]);
      assert a == [a[0]] + a[1..] && b == [b[0]] + b[1..];
    }
    if a != "" {
      TextOrder(a[1..], a[1..]);
    }
  }

  lemma {:induction false} TextOrderTransitive(a: string, b: string, c: string)
    requires TextBefore(a, b) && TextBefore(b, c)
    ensures TextBefore(a, c)
  {
    if a != "" && a[0] == b[0] == c[0] {
      TextOrderTransitive(a[1..], b[1..], c[1..]);
    }
  }

  lemma BeforeIsTotal(rows: map<Slot, Row>, a: Slot, b: Slot)
    requires a in rows && b in rows
    ensures a == b || Before(rows, a, b) || Before(rows, b, a)
    ensures !(Before(rows, a, b) && Before(rows, b, a))
  {
    TextOrder(a.key, b.key);
  }

  lemma BeforeIsTransitive(rows: map<Slot, Row>, a: Slot, b: Slot, c: Slot)
    requires a in rows && b in rows && c in rows
    requires Before(rows, a, b) && Before(rows, b, c)
    ensures Before(rows, a, c)
  {
    if TextBefore(a.key, b.key) && TextBefore(b.key, c.key) {
      TextOrderTransitive(a.key, b.key, c.key);
    }
  }

  predicate IsLeast(rows: map<Slot, Row>, s: Slot) {
    s in rows && forall o :: o in rows && o != s ==> Before(rows, s, o)
  }

  lemma {:induction false} LeastExists(rows: map<Slot, Row>, among: set<Slot>) returns (s: Slot)
    requires among != {} && among <= rows.Keys
    ensures s in among && forall o :: o in among && o != s ==> Before(rows, s, o)
    decreases |among|
  {
    var k :| k in among;
    var rest := among - {k};
    if rest == {} {
      s := k;
      assert forall o :: o in among ==> o == k || o in rest;
    } else {
      var l := LeastExists(rows, rest);
      BeforeIsTotal(rows, k, l);
      s := if Before(rows, k, l) then k else l;
      forall o | o in among && o != s ensures Before(rows, s, o) {
        if o != k && o != l {
          assert o in rest;
          if s == k {
            BeforeIsTransitive(rows, k, l, o);
          }
        }
      }
    }
  }

  ghost function Least(rows: map<Slot, Row>): (s: Slot)
    requires rows != map[]
    ensures IsLeast(rows, s)
  {
    assert exists s :: IsLeast(rows, s) by {
      assert rows.Keys != {};
      var l := LeastExists(rows, rows.Keys);
      assert IsLeast(rows, l);
    }
    var s :| IsLeast(rows, s);
    s
  }

  lemma LeastIsUnique(rows: map<Slot, Row>, a: Slot, b: Slot)
    requires IsLeast(rows, a) && IsLeast(rows, b)
    ensures a == b
  {
    if a != b {
      BeforeIsTotal(rows, a, b);
    }
  }

  // All slots, the first to be evicted first.
  ghost function Ordered(rows: map<Slot, Row>): (order: seq<Slot>)
    ensures |order| == |rows|
    decreases |rows|
  {
    if rows == map[] then [] else [Least(rows)] + Ordered(rows - {Least(rows)})
  }

  function Elements(slots: seq<Slot>): set<Slot> {
    set s | s in slots
  }

  lemma {:induction false} OrderedListsAll(rows: map<Slot, Row>)
    ensures forall s :: s in Ordered(rows) <==> s in rows
    decreases |rows|
  {
    if rows != map[] {
      var l := Least(rows);
      OrderedListsAll(rows - {l});
      assert Ordered(rows) == [l] + Ordered(rows - {l});
    }
  }

  lemma OrderedNext(rows: map<Slot, Row>, i: nat)
    requires 0 < i < |rows|
    ensures Ordered(rows)[0] == Least(rows)
    ensures Ordered(rows)[i] == Ordered(rows - {Least(rows)})[i - 1] && Ordered(rows)[i] in rows - {Least(rows)}
  {
    var rest := rows - {Least(rows)};
    OrderedListsAll(rest);
    assert Ordered(rows) == [Least(rows)] + Ordered(rest);
    assert Ordered(rest)[i - 1] in Ordered(rest);
  }

  lemma {:induction false} OrderedAscends(rows: map<Slot, Row>, i: nat, j: nat)
    requires i < j < |rows|
    ensures Ordered(rows)[i] in rows && Ordered(rows)[j] in rows && Before(rows, Ordered(rows)[i], Ordered(rows)[j])
    decreases |rows|
  {
    hide Before, Ordered;
    var l := Least(rows);
    OrderedNext(rows, j);
    if i > 0 {
      OrderedNext(rows, i);
      OrderedAscends(rows - {l}, i - 1, j - 1);
      StillBefore(rows, l, Ordered(rows)[i], Ordered(rows)[j]);
    }
  }

  lemma StillBefore(rows: map<Slot, Row>, l: Slot, a: Slot, b: Slot)
    requires a in rows && b in rows && a != l && b != l
    ensures Before(rows - {l}, a, b) == Before(rows, a, b)
  {
  }

  /*** Eviction, one row at a time ***/

  ghost function Evict(rows: map<Slot, Row>, limits: Limits): map<Slot, Row>
    decreases |rows|
  {
    if Fits(rows, limits) || rows == map[] then rows else Evict(rows - {Least(rows)}, limits)
  }

  // The rows left when the first n in the order are removed.
  ghost function Dropped(rows: map<Slot, Row>, n: nat): map<Slot, Row>
    requires n <= |rows|
  {
    rows - Elements(Ordered(rows)[..n])
  }

  lemma DropNone(rows: map<Slot, Row>)
    ensures Dropped(rows, 0) == rows
  {
  }

  lemma DropOneMore(rows: map<Slot, Row>, n: nat)
    requires rows != map[] && n < |rows|
    ensures Dropped(rows, n + 1) == Dropped(rows - {Least(rows)}, n)
  {
    var l := Least(rows);
    var rest := rows - {l};
    assert Ordered(rows)[..n + 1] == [l] + Ordered(rest)[..n];
    hide Ordered;
    assert Elements([l] + Ordered(rest)[..n]) == {l} + Elements(Ordered(rest)[..n]);
    MinusTwice(rows, {l}, Elements(Ordered(rest)[..n]));
  }

  // The first n in the order are the shortest prefix whose removal makes the rest fit.
  ghost predicate IsShortestPrefix(rows: map<Slot, Row>, limits: Limits, n: nat) {
    n <= |rows| && Fits(Dropped(rows, n), limits) && forall m: nat :: m < n ==> !Fits(Dropped(rows, m), limits)
  }

  lemma OneLonger(rows: map<Slot, Row>, limits: Limits, k: nat)
    requires rows != map[] && !Fits(rows, limits) && IsShortestPrefix(rows - {Least(rows)}, limits, k)
    ensures IsShortestPrefix(rows, limits, k + 1)
    ensures Dropped(rows, k + 1) == Dropped(rows - {Least(rows)}, k)
  {
    hide Dropped, Fits;
    DropNone(rows);
    DropOneMore(rows, k);
    forall m: nat | 0 < m < k + 1
      ensures !Fits(Dropped(rows, m), limits)
    {
      DropOneMore(rows, m - 1);
    }
  }

  // Eviction removes the shortest prefix of the order that brings the tables within the limits.
  lemma {:induction false} EvictDropsShortestPrefix(rows: map<Slot, Row>, limits: Limits) returns (n: nat)
    ensures IsShortestPrefix(rows, limits, n) && Evict(rows, limits) == Dropped(rows, n)
    decreases |rows|
  {
    hide Dropped, IsShortestPrefix;
    NothingFits(limits);
    if Fits(rows, limits) {
      n := 0;
      DropNone(rows);
      FitsAlready(rows, limits);
    } else {
      hide Fits;
      var rest := rows - {Least(rows)};
      assert |rest| < |rows|;
      var k := EvictDropsShortestPrefix(rest, limits);
      n := k + 1;
      OneLonger(rows, limits, k);
    }
  }

  lemma FitsAlready(rows: map<Slot, Row>, limits: Limits)
    requires Fits(rows, limits)
    ensures IsShortestPrefix(rows, limits, 0)
  {
    DropNone(rows);
  }

  lemma NothingFits(limits: Limits)
    ensures Fits(map[], limits)
  {
  }

  lemma BeyondPrefix(order: seq<Slot>, n: nat, s: Slot) returns (j: nat)
    requires n <= |order| && s in order && s !in order[..n]
    ensures n <= j < |order| && order[j] == s
  {
    assert order == order[..n] + order[n..];
    assert s in order[n..];
    var i :| 0 <= i < |order[n..]| && order[n..][i] == s;
    j := n + i;
  }

  // Every row evicted comes before every row kept.
  lemma EvictedComeFirst(rows: map<Slot, Row>, limits: Limits, evicted: Slot, kept: Slot)
    requires evicted in rows && evicted !in Evict(rows, limits) && kept in Evict(rows, limits)
    ensures kept in rows && Before(rows, evicted, kept)
  {
    hide Before, Ordered, Evict;
    var n := EvictDropsShortestPrefix(rows, limits);
    OrderedListsAll(rows);
    var order := Ordered(rows);
    assert evicted in order[..n];
    var i :| 0 <= i < n && order[..n][i] == evicted;
    var j := BeyondPrefix(order, n, kept);
    OrderedAscends(rows, i, j);
  }

  // What is left is in the order it was, so eviction can stop and be taken up again.
  lemma {:induction false} OrderOfTheRest(rows: map<Slot, Row>, n: nat)
    requires n <= |rows|
    ensures |Dropped(rows, n)| == |rows| - n && Ordered(Dropped(rows, n)) == Ordered(rows)[n..]
    decreases n
  {
    if n == 0 {
      DropNone(rows);
    } else {
      var rest := rows - {Least(rows)};
      assert Ordered(rows) == [Least(rows)] + Ordered(rest);
      hide Ordered, Dropped;
      DropOneMore(rows, n - 1);
      OrderOfTheRest(rest, n - 1);
    }
  }

  lemma NextToDrop(rows: map<Slot, Row>, n: nat)
    requires n < |rows|
    ensures Dropped(rows, n) != map[] && Least(Dropped(rows, n)) == Ordered(rows)[n]
    ensures Dropped(rows, n + 1) == Dropped(rows, n) - {Ordered(rows)[n]}
  {
    OrderOfTheRest(rows, n);
    DroppedNext(rows, n);
    LeastIsFirst(Dropped(rows, n));
  }

  lemma DroppedNext(rows: map<Slot, Row>, n: nat)
    requires n < |rows|
    ensures Dropped(rows, n + 1) == Dropped(rows, n) - {Ordered(rows)[n]}
  {
    hide Ordered;
    OneMoreElement(Ordered(rows), n);
    MinusTwice(rows, Elements(Ordered(rows)[..n]), {Ordered(rows)[n]});
  }

  lemma OneMoreElement(slots: seq<Slot>, n: nat)
    requires n < |slots|
    ensures Elements(slots[..n + 1]) == Elements(slots[..n]) + {slots[n]}
  {
    assert slots[..n + 1] == slots[..n] + [slots[n]];
  }

  lemma LeastIsFirst(rows: map<Slot, Row>)
    requires rows != map[]
    ensures Ordered(rows)[0] == Least(rows)
  {
  }
}
