/** Package transaksi, storage side: the `transaksi` table (purchases: the
 *  id of the item bought, a quantity and a total), what each of the
 *  repository's SQL statements does to it, and the MySQL-backed repository
 *  that issues them. Nothing here consults the barang table. */
module TransaksiRepository {
  import opened Common

  /** One row of table `transaksi`, with the columns the repository scans. */
  datatype Transaksi = Transaksi(id: int, barangId: int, quantity: int, total: Float64)

  /** The write statements the repository sends, with the values bound to their placeholders. */
  datatype Statement =
    | InsertStmt(barangId: int, quantity: int, total: Float64)
    | UpdateStmt(barangId: int, quantity: int, total: Float64, id: int)
    | DeleteStmt(id: int)

  /** The table's rows, by primary key. */
  type Table = map<int, Transaksi>

  /** The id column of every row holds the key it is stored under. */
  ghost predicate KeyedById(t: Table) {
    forall id :: id in t ==> t[id].id == id
  }

  // ---------------------------------------------------------------------
  // What a statement does when the store executes it.
  // ---------------------------------------------------------------------

  /** The single-row SELECT by id: the row, or the not-found sentinel when no row matches. */
  function Lookup(t: Table, id: int): (r: Reply<Transaksi>)
    ensures WellFormed(r)
    ensures r.err == Some(NotFound) <==> id !in t
    ensures r.value.Some? <==> id in t
    ensures r.value.Some? ==> id in t && r.value.value == t[id]
    ensures KeyedById(t) && r.value.Some? ==> r.value.value.id == id
  {
    if id in t then Ok(t[id]) else Fail(NotFound)
  }

  /** The INSERT of item id, quantity and total under the key the store
   *  assigns; the caller's id plays no part. */
  function Inserted(t: Table, newId: int, tx: Transaksi): (r: Table)
    ensures r.Keys == t.Keys + {newId}
    ensures r[newId] == tx.(id := newId)
    ensures forall k :: k in t && k != newId ==> r[k] == t[k]
  {
    t[newId := Transaksi(newId, tx.barangId, tx.quantity, tx.total)]
  }

  /** The UPDATE of item id, quantity and total WHERE id matches: no row
   *  matching is no change. */
  function Updated(t: Table, tx: Transaksi): (r: Table)
    ensures r.Keys == t.Keys
    ensures forall k :: k in t && k != tx.id ==> r[k] == t[k]
    ensures tx.id in t ==> r[tx.id] == t[tx.id].(barangId := tx.barangId, quantity := tx.quantity, total := tx.total)
    ensures KeyedById(t) ==> KeyedById(r) && (tx.id in t ==> r[tx.id] == tx)
  {
    if tx.id in t then
      t[tx.id := t[tx.id].(barangId := tx.barangId, quantity := tx.quantity, total := tx.total)]
    else
      t
  }

  /** The DELETE WHERE id matches: no row matching is no change. */
  function Deleted(t: Table, id: int): (r: Table)
    ensures r.Keys == t.Keys - {id}
    ensures forall k :: k in r ==> r[k] == t[k]
    ensures KeyedById(t) ==> KeyedById(r)
  {
    t - {id}
  }

  /** Reading a row back after an UPDATE gives the new item id, quantity and total
   *  if the row was there; every other read is as before. */
  lemma LookupAfterUpdate(t: Table, tx: Transaksi, id: int)
    requires KeyedById(t)
    ensures KeyedById(Updated(t, tx))
    ensures Lookup(Updated(t, tx), id) ==
            if id == tx.id && tx.id in t then Ok(tx) else Lookup(t, id)
  {
  }

  /** Reading a row back after a DELETE gives not-found for that id; every
   *  other read is as before. */
  lemma LookupAfterDelete(t: Table, id: int, other: int)
    requires KeyedById(t)
    ensures KeyedById(Deleted(t, id))
    ensures Lookup(Deleted(t, id), other) ==
            if other == id then Fail(NotFound) else Lookup(t, other)
  {
  }

  /** Reading by the assigned key after an INSERT gives the entity with only its id replaced. */
  lemma LookupAfterInsert(t: Table, newId: int, tx: Transaksi, id: int)
    requires KeyedById(t) && newId !in t
    ensures KeyedById(Inserted(t, newId, tx))
    ensures Lookup(Inserted(t, newId, tx), id) ==
            if id == newId then Ok(tx.(id := newId)) else Lookup(t, id)
  {
  }

  // ---------------------------------------------------------------------
  // The list query: the rows the driver delivers, and the scan loop over them.
  // ---------------------------------------------------------------------

  /** One delivered row: scanned into an entity, or not scannable (it still
   *  comes from the stored row with key `id`). */
  datatype RowResult = Scanned(entity: Transaksi) | Unscannable(id: int)

  function RowId(row: RowResult): int {
    match row
    case Scanned(e) => e.id
    case Unscannable(id) => id
  }

  /** The store's answer to the list SELECT: refused outright, or the rows
   *  `Next` delivers followed by whether `Err` reports an error afterwards. */
  datatype Cursor = QueryFailed | Opened(rows: seq<RowResult>, iterErr: bool)

  /** The answers a store holding `t` may give: each row at most once, in an
   *  order of the store's choosing, a scanned row equal to the stored one,
   *  and every row delivered unless the iterator stopped with an error. */
  predicate CursorOver(c: Cursor, t: Table) {
    c.Opened? ==>
      && (forall i :: 0 <= i < |c.rows| ==> RowId(c.rows[i]) in t)
      && (forall i :: 0 <= i < |c.rows| && c.rows[i].Scanned? ==>
            t[c.rows[i].entity.id] == c.rows[i].entity)
      && (forall i, j :: 0 <= i < j < |c.rows| ==> RowId(c.rows[i]) != RowId(c.rows[j]))
      && (!c.iterErr ==>
            forall id :: id in t ==> exists i :: 0 <= i < |c.rows| && RowId(c.rows[i]) == id)
  }

  predicate AllScanned(rows: seq<RowResult>) {
    forall i :: 0 <= i < |rows| ==> rows[i].Scanned?
  }

  /** The outcome of the list query: each row scanned in turn, the first
   *  unscannable row ends it with a scan error and nothing collected, and an
   *  iteration error after the last row discards what was collected. */
  function Scan(c: Cursor): (r: Reply<seq<Transaksi>>)
    ensures WellFormed(r)
    ensures r.err.Some? ==> r.err.value.StoreError?
    ensures c.QueryFailed? ==> r.err == Some(StoreError(GetAllFailed))
  {
    match c
    case QueryFailed => Fail(StoreError(GetAllFailed))
    case Opened(rows, iterErr) => ScanRows(rows, iterErr)
  }

  function ScanRows(rows: seq<RowResult>, iterErr: bool): (r: Reply<seq<Transaksi>>)
    ensures WellFormed(r)
    ensures r.err.Some? ==> r.err == Some(StoreError(ScanFailed)) || r.err == Some(StoreError(IterationFailed))
    ensures r.value.Some? ==> |r.value.value| == |rows|
  {
    if rows == [] then
      (if iterErr then Fail(StoreError(IterationFailed)) else Ok([]))
    else if rows[0].Unscannable? then
      Fail(StoreError(ScanFailed))
    else
      var rest := ScanRows(rows[1..], iterErr);
      if rest.value.Some? then Ok([rows[0].entity] + rest.value.value) else rest
  }

  /** What the scan loop yields for every delivered sequence of rows: an
   *  error exactly when a row fails to scan or the iterator reports one (the
   *  scan error winning), and otherwise one entity per row, in order. */
  lemma {:induction false} ScanRowsOutcome(rows: seq<RowResult>, iterErr: bool)
    ensures WellFormed(ScanRows(rows, iterErr))
    ensures !AllScanned(rows) ==> ScanRows(rows, iterErr) == Fail(StoreError(ScanFailed))
    ensures AllScanned(rows) && iterErr ==>
              ScanRows(rows, iterErr) == Fail(StoreError(IterationFailed))
    ensures AllScanned(rows) && !iterErr ==>
              && ScanRows(rows, iterErr).value.Some?
              && |ScanRows(rows, iterErr).value.value| == |rows|
              && forall i :: 0 <= i < |rows| ==>
                   rows[i] == Scanned(ScanRows(rows, iterErr).value.value[i])
  {
    if rows != [] && rows[0].Scanned? {
      ScanRowsOutcome(rows[1..], iterErr);
      assert AllScanned(rows) <==> AllScanned(rows[1..]) by {
        if AllScanned(rows[1..]) {
          forall i | 0 <= i < |rows| ensures rows[i].Scanned? {
            if i > 0 { assert rows[i] == rows[1..][i - 1]; }
          }
        }
      }
    }
  }

  /** A successful list query over any answer the store may give returns
   *  every stored row exactly once, each as it is stored. */
  lemma ScanEnumerates(c: Cursor, t: Table)
    requires CursorOver(c, t)
    ensures WellFormed(Scan(c))
    ensures Scan(c).value.Some? ==> Enumerates(Scan(c).value.value, t)
  {
    if c.Opened? {
      ScanRowsOutcome(c.rows, c.iterErr);
      if Scan(c).value.Some? {
        var vs := Scan(c).value.value;
        assert forall i :: 0 <= i < |vs| ==> RowId(c.rows[i]) == vs[i].id;
      }
    }
  }

  /** The rows of `t`, each once, each as stored, in some order. */
  ghost predicate Enumerates(vs: seq<Transaksi>, t: Table) {
    && (forall i :: 0 <= i < |vs| ==> vs[i].id in t && t[vs[i].id] == vs[i])
    && (forall i, j :: 0 <= i < j < |vs| ==> vs[i].id != vs[j].id)
    && (forall id :: id in t ==> exists i :: 0 <= i < |vs| && vs[i].id == id)
  }

  /** The list query on an empty table returns an empty list and no error,
   *  unless the store refuses the query or the iterator reports an error. */
  lemma ScanOfEmptyTable(c: Cursor)
    requires CursorOver(c, map[])
    ensures c.Opened? && !c.iterErr ==> Scan(c) == Ok([])
  {
    var empty: Table := map[];
    assert c.Opened? && |c.rows| > 0 ==> RowId(c.rows[0]) in empty;
  }

  /** Conversely, every order of the stored rows is an answer the store may
   *  give, and scanning it succeeds with exactly those rows in that order. */
  lemma ScanOfCompleteCursor(t: Table, keys: seq<int>)
    requires KeyedById(t)
    requires forall i, j :: 0 <= i < j < |keys| ==> keys[i] != keys[j]
    requires forall i :: 0 <= i < |keys| ==> keys[i] in t
    requires forall id :: id in t ==> exists i :: 0 <= i < |keys| && keys[i] == id
    ensures var rows := seq(|keys|, i requires 0 <= i < |keys| => Scanned(t[keys[i]]));
            && CursorOver(Opened(rows, false), t)
            && Scan(Opened(rows, false)) == Ok(seq(|keys|, i requires 0 <= i < |keys| => t[keys[i]]))
  {
    var rows := seq(|keys|, i requires 0 <= i < |keys| => Scanned(t[keys[i]]));
    assert forall i :: 0 <= i < |rows| ==> RowId(rows[i]) == keys[i];
    forall id | id in t ensures exists i :: 0 <= i < |rows| && RowId(rows[i]) == id {
      var i :| 0 <= i < |keys| && keys[i] == id;
      assert RowId(rows[i]) == id;
    }
    ScanRowsOutcome(rows, false);
    assert AllScanned(rows);
    var vs := Scan(Opened(rows, false)).value.value;
    assert vs == seq(|keys|, i requires 0 <= i < |keys| => t[keys[i]]) by {
      forall i | 0 <= i < |keys| ensures vs[i] == t[keys[i]] {
        assert rows[i] == Scanned(vs[i]);
      }
    }
  }

  // ---------------------------------------------------------------------
  // The repository.
  // ---------------------------------------------------------------------

  /** The MySQL implementation of the transaksi repository, with the database
   *  it holds a handle to: the table's rows, the table's AUTO_INCREMENT
   *  counter, and the log of write statements it has sent. */
  class MySQLTransaksiRepo {
    var table: Table
    var autoIncrement: int
    ghost var issued: seq<Statement>

    ghost predicate Valid()
      reads this
    {
      && KeyedById(table)
      && autoIncrement > 0
      && forall id :: id in table ==> id < autoIncrement
    }

    /** A repository over a database whose table holds `rows`. */
    constructor (rows: Table, counter: int)
      requires KeyedById(rows) && counter > 0
      requires forall id :: id in rows ==> id < counter
      ensures Valid()
      ensures table == rows && autoIncrement == counter && issued == []
    {
      table, autoIncrement, issued := rows, counter, [];
    }

    /** Inserts item id, quantity and total only, whether or not the item
     *  exists. The store assigns the key (`newId`, which the caller never
     *  learns); the entity's own id is ignored. */
    method CreateTransaksi(tx: Transaksi) returns (err: Option<Error>, ghost newId: int)
      requires Valid()
      modifies this
      ensures Valid()
      ensures issued == old(issued) + [InsertStmt(tx.barangId, tx.quantity, tx.total)]
      ensures err.None? || err == Some(StoreError(CreateFailed))
      ensures err.None? ==>
                && newId == old(autoIncrement) && newId !in old(table)
                && table == Inserted(old(table), newId, tx)
                && autoIncrement == old(autoIncrement) + 1
      ensures err.Some? ==> table == old(table) && autoIncrement == old(autoIncrement)
    {
      issued := issued + [InsertStmt(tx.barangId, tx.quantity, tx.total)];
      newId := autoIncrement;
      var failed := StoreFails();
      if failed {
        err := Some(StoreError(CreateFailed));
      } else {
        table := Inserted(table, autoIncrement, tx);
        autoIncrement := autoIncrement + 1;
        err := None;
      }
    }

    /** Every row of the table, in the store's order, or an error and no rows. */
    method GetAllTransaksi() returns (r: Reply<seq<Transaksi>>, ghost cursor: Cursor)
      ensures CursorOver(cursor, table)
      ensures r == Scan(cursor)
      ensures WellFormed(r)
      ensures r.value.Some? ==> Enumerates(r.value.value, table)
    {
      var c: Cursor :| CursorOver(c, table);
      cursor := c;
      ScanEnumerates(c, table);
      if c.QueryFailed? {
        r := Fail(StoreError(GetAllFailed));
        return;
      }
      ScanRowsOutcome(c.rows, c.iterErr);
      var rows := c.rows;
      var collected: seq<Transaksi> := [];
      var i := 0;
      while i < |rows|
        invariant 0 <= i <= |rows|
        invariant |collected| == i
        invariant forall j :: 0 <= j < i ==> rows[j] == Scanned(collected[j])
      {
        if rows[i].Unscannable? {
          assert !AllScanned(rows);
          r := Fail(StoreError(ScanFailed));
          return;
        }
        collected := collected + [rows[i].entity];
        i := i + 1;
      }
      assert AllScanned(rows);
      if c.iterErr {
        r := Fail(StoreError(IterationFailed));
      } else {
        r := Ok(collected);
        assert Scan(c).value.value == collected;
      }
    }

    /** The row with key `id`; not-found exactly when there is no such row,
     *  unless the store fails the query, which is reported as a different error. */
    method GetTransaksiByID(id: int) returns (r: Reply<Transaksi>)
      ensures r == Lookup(table, id) || r == Fail(StoreError(GetFailed))
      ensures Valid() && r.value.Some? ==> r.value.value.id == id
    {
      var failed := StoreFails();
      if failed {
        r := Fail(StoreError(GetFailed));
      } else if id in table {
        r := Ok(table[id]);
      } else {
        r := Fail(NotFound);
      }
    }

    /** Overwrites item id, quantity and total of the row keyed by `tx.id`;
     *  succeeds, with nothing changed, when there is no such row. */
    method UpdateTransaksi(tx: Transaksi) returns (err: Option<Error>)
      requires Valid()
      modifies this
      ensures Valid() && autoIncrement == old(autoIncrement)
      ensures issued == old(issued) + [UpdateStmt(tx.barangId, tx.quantity, tx.total, tx.id)]
      ensures err.None? || err == Some(StoreError(UpdateFailed))
      ensures err.None? ==> table == Updated(old(table), tx)
      ensures err.None? && tx.id in old(table) ==> table == old(table)[tx.id := tx]
      ensures err.Some? || tx.id !in old(table) ==> table == old(table)
    {
      issued := issued + [UpdateStmt(tx.barangId, tx.quantity, tx.total, tx.id)];
      var failed := StoreFails();
      if failed {
        err := Some(StoreError(UpdateFailed));
      } else {
        LookupAfterUpdate(table, tx, tx.id);
        table := Updated(table, tx);
        err := None;
      }
    }

    /** Removes the row keyed by `id`; succeeds, with nothing changed, when there is no such row. */
    method DeleteTransaksi(id: int) returns (err: Option<Error>)
      requires Valid()
      modifies this
      ensures Valid() && autoIncrement == old(autoIncrement)
      ensures issued == old(issued) + [DeleteStmt(id)]
      ensures err.None? || err == Some(StoreError(DeleteFailed))
      ensures err.None? ==> table == Deleted(old(table), id) && id !in table
      ensures err.None? ==> table.Keys == old(table).Keys - {id}
      ensures err.Some? || id !in old(table) ==> table == old(table)
    {
      issued := issued + [DeleteStmt(id)];
      var failed := StoreFails();
      if failed {
        err := Some(StoreError(DeleteFailed));
      } else {
        table := Deleted(table, id);
        err := None;
      }
    }
  }
}
