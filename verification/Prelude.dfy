// Shared vocabulary: optional values, results, and SQLite's row-id allocation.
module Prelude {

  datatype Option<+T> = None | Some(value: T)

  // The row id SQLite gives the next row of a table keyed by INTEGER PRIMARY KEY:
  // one more than the largest id in use, or 1 in an empty table.
  ghost function NextRowId(ids: set<nat>): (id: nat)
    ensures id !in ids
    ensures forall k :: k in ids ==> k < id
    ensures ids == {} ==> id == 1
    ensures ids != {} ==> id > 0 && id - 1 in ids
  {
    if ids == {} then 1
    else
      var k :| k in ids;
      var rest := NextRowId(ids - {k});
      assert forall j :: j in ids ==> j == k || j in ids - {k};
      if k < rest then rest else k + 1
  }

  method AllocateRowId(ids: set<nat>) returns (id: nat)
    ensures id == NextRowId(ids)
  {
    id := 1;
    var pending := ids;
    while pending != {}
      invariant pending <= ids
      invariant forall k :: k in ids && k !in pending ==> k < id
      invariant id == 1 || (id > 0 && id - 1 in ids)
    {
      var k :| k in pending;
      pending := pending - {k};
      if id <= k {
        id := k + 1;
      }
    }
    if ids != {} {
      assert id > 0 && id - 1 in ids by {
        var k :| k in ids;
        assert k < id;
      }
    }
  }

  /*** Maps taken apart ***/

  lemma DisjointUnion<K, V>(whole: map<K, V>, a: map<K, V>, b: map<K, V>)
    requires forall k :: k in whole <==> k in a || k in b
    requires forall k :: k in b ==> k !in a && whole[k] == b[k]
    requires forall k :: k in a ==> whole[k] == a[k]
    ensures whole == a + b && a.Keys !! b.Keys
  {
  }

  lemma MinusTwice<K, V>(m: map<K, V>, a: set<K>, b: set<K>)
    ensures (m - a) - b == m - (a + b)
  {
  }
}
