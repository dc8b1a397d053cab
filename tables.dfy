/** An ORM table held in memory: a map from primary key to row. This module holds what both services
    do with one in getAll: read a LIMIT/OFFSET window of all rows, and count all rows. findAll is
    called without an ORDER BY, so the order of the rows it returns is not fixed by the services;
    the model admits every order of the table's keys. */
module Tables {

  import opened Outcomes
  import opened Pagination

  /** `ids` lists every key of the table exactly once, in some order. */
  predicate Lists(ids: seq<nat>, keys: set<nat>) {
    (forall id :: id in ids ==> id in keys) && (forall id :: id in keys ==> id in ids) &&
    (forall a, b :: 0 <= a < b < |ids| ==> ids[a] != ids[b])
  }

  /** A listing of a set of keys exists. */
  lemma {:induction false} ListingExists(keys: set<nat>)
    ensures exists ids :: Lists(ids, keys)
    decreases keys
  {
    if keys != {} {
      var x :| x in keys;
      ListingExists(keys - {x});
      var ids :| Lists(ids, keys - {x});
      assert Lists(ids + [x], keys);
    } else {
      assert Lists([], keys);
    }
  }

  /** A listing of the keys has as many entries as there are keys. */
  lemma {:induction false} ListingLength(ids: seq<nat>, keys: set<nat>)
    requires Lists(ids, keys)
    ensures |ids| == |keys|
    decreases |ids|
  {
    if ids != [] {
      var last := ids[|ids| - 1];
      var init := ids[..|ids| - 1];
      assert ids == init + [last];
      assert Lists(init, keys - {last});
      ListingLength(init, keys - {last});
    }
  }

  /** The rows stored under a list of keys, in that order. */
  function RowsAt<T>(table: map<nat, T>, ids: seq<nat>): (rows: seq<T>)
    requires forall id :: id in ids ==> id in table
    ensures |rows| == |ids|
    ensures forall k :: 0 <= k < |ids| ==> rows[k] == table[ids[k]]
  {
    if ids == [] then [] else RowsAt(table, ids[..|ids| - 1]) + [table[ids[|ids| - 1]]]
  }

  /** LIMIT `limit` OFFSET `offset` applied to a listing. */
  function Window<T>(rows: seq<T>, limit: nat, offset: nat): (w: seq<T>)
    ensures |w| == if offset >= |rows| then 0 else if |rows| - offset < limit then |rows| - offset else limit
    ensures forall k :: 0 <= k < |w| ==> w[k] == rows[offset + k]
  {
    if offset >= |rows| then []
    else if |rows| - offset < limit then rows[offset..]
    else rows[offset..offset + limit]
  }

  /** A page read over a listing holds at most `limit` rows, each stored under the listed key at its
      position. */
  lemma WindowOfListing<T>(table: map<nat, T>, ids: seq<nat>, limit: nat, offset: nat)
    requires Lists(ids, table.Keys)
    ensures var items := Window(RowsAt(table, ids), limit, offset);
            |items| <= limit &&
            forall k :: 0 <= k < |items| ==> offset + k < |ids| && items[k] == table[ids[offset + k]]
  {
  }

  /** Every row is stored under its own primary key, as `key` reads it from the row. */
  predicate KeyedBy<T>(table: map<nat, T>, key: T -> nat) {
    forall id :: id in table ==> key(table[id]) == id
  }

  /** The rows of a page over a listing are distinct stored rows, at most `limit` of them. */
  lemma PageRowsAreStored<T>(table: map<nat, T>, key: T -> nat, ids: seq<nat>, limit: nat, offset: nat)
    requires KeyedBy(table, key) && Lists(ids, table.Keys)
    ensures var items := Window(RowsAt(table, ids), limit, offset);
            |items| <= limit &&
            (forall k :: 0 <= k < |items| ==> key(items[k]) in table && table[key(items[k])] == items[k]) &&
            (forall a, b :: 0 <= a < b < |items| ==> key(items[a]) != key(items[b]))
  {
    var items := Window(RowsAt(table, ids), limit, offset);
    WindowOfListing(table, ids, limit, offset);
    forall k | 0 <= k < |items|
      ensures key(items[k]) == ids[offset + k]
    {
      assert items[k] == table[ids[offset + k]];
    }
  }

  /** With a page size n > 0, row r of the listing is shown on page r / n + 1 at position r % n. */
  lemma RowOnItsPage<T>(rows: seq<T>, size: nat, r: nat)
    requires size > 0 && r < |rows|
    ensures var o := PageOptions(PageQuery(r / size + 1, Some(size)));
            o.offset >= 0 && o.limit == size &&
            r % size < |Window(rows, size, o.offset)| && Window(rows, size, o.offset)[r % size] == rows[r]
  {
    var p := r / size + 1;
    OffsetSkipsEarlierPages(p, size);
    assert p == 1 || PageOptions(PageQuery(p, Some(size))).offset == (p - 1) * size;
    assert (r / size) * size + r % size == r;
  }

  /** What getAll returns besides its message: one window of rows and the count of all rows. */
  datatype Page<T> = Page(items: seq<T>, count: nat)

  /** findAll(options) for the window, findAll() for the count. A negative LIMIT or OFFSET is
      rejected by the database, and the rejection propagates. */
  method FindPage<T>(table: map<nat, T>, q: PageQuery) returns (r: Result<Page<T>>)
    ensures var o := PageOptions(q);
            r.Thrown? <==> o.limit < 0 || o.offset < 0
    ensures r.Ok? ==> r.value.count == |table|
    ensures r.Ok? ==> var o := PageOptions(q);
            o.limit >= 0 && o.offset >= 0 &&
            exists ids :: Lists(ids, table.Keys) && r.value.items == Window(RowsAt(table, ids), o.limit, o.offset)
  {
    var o := PageOptions(q);
    if o.limit < 0 || o.offset < 0 {
      return Thrown(Database("LIMIT and OFFSET must not be negative"));
    }
    ListingExists(table.Keys);
    var ids :| Lists(ids, table.Keys);
    var all := RowsAt(table, ids);
    ListingLength(ids, table.Keys);
    // the count is the length of a second, unpaginated findAll()
    r := Ok(Page(Window(all, o.limit, o.offset), |all|));
  }
}
