/** Package transaksi, use-case side: the operations the HTTP handlers call.
 *  Reads and create go straight to the repository; update and delete first
 *  read the row by id and write only if that read succeeded. */
module TransaksiUseCase {
  import opened Common
  import opened TransaksiRepository

  class TransaksiUseCase {
    const repo: MySQLTransaksiRepo

    constructor (repo: MySQLTransaksiRepo)
      ensures this.repo == repo
    {
      this.repo := repo;
    }

    /** The repository's list, or its error with a nil list. */
    method GetAllTransaksi() returns (r: Reply<seq<Transaksi>>, ghost cursor: Cursor)
      ensures CursorOver(cursor, repo.table)
      ensures r == Scan(cursor)
      ensures WellFormed(r)
      ensures r.value.Some? ==> Enumerates(r.value.value, repo.table)
    {
      var listed;
      listed, cursor := repo.GetAllTransaksi();
      r := Propagate(listed);
    }

    /** Hands the entity to the repository unchecked (its item id need not
     *  name a stored item) and returns the repository's error. */
    method CreateTransaksi(tx: Transaksi) returns (err: Option<Error>, ghost newId: int)
      requires repo.Valid()
      modifies repo
      ensures repo.Valid()
      ensures repo.issued == old(repo.issued) + [InsertStmt(tx.barangId, tx.quantity, tx.total)]
      ensures err.None? || err == Some(StoreError(CreateFailed))
      ensures err.None? ==>
                && newId == old(repo.autoIncrement) && newId !in old(repo.table)
                && repo.table == Inserted(old(repo.table), newId, tx)
                && repo.autoIncrement == old(repo.autoIncrement) + 1
      ensures err.Some? ==>
                repo.table == old(repo.table) && repo.autoIncrement == old(repo.autoIncrement)
    {
      err, newId := repo.CreateTransaksi(tx);
    }

    /** The repository's row for `id`, or its error with a nil row. */
    method GetTransaksiByID(id: int) returns (r: Reply<Transaksi>)
      ensures r == Lookup(repo.table, id) || r == Fail(StoreError(GetFailed))
      ensures WellFormed(r)
      ensures r.err == Some(NotFound) ==> id !in repo.table
      ensures r.value.Some? ==> id in repo.table && r.value.value == repo.table[id]
      ensures repo.Valid() && r.value.Some? ==> r.value.value.id == id
    {
      var found := repo.GetTransaksiByID(id);
      r := Propagate(found);
    }

    /** Reads the row keyed by `tx.id` (`check` is what that read returned).
     *  A failed read, not-found included, is returned as it is and nothing is
     *  written; otherwise the UPDATE is issued and its error returned. */
    method UpdateTransaksi(tx: Transaksi) returns (err: Option<Error>, ghost check: Reply<Transaksi>)
      requires repo.Valid()
      modifies repo
      ensures repo.Valid() && repo.autoIncrement == old(repo.autoIncrement)
      ensures check == Lookup(old(repo.table), tx.id) || check == Fail(StoreError(GetFailed))
      ensures check.err.Some? ==>
                && err == check.err
                && repo.issued == old(repo.issued)
                && repo.table == old(repo.table)
      ensures check.err.None? ==>
                && repo.issued == old(repo.issued) + [UpdateStmt(tx.barangId, tx.quantity, tx.total, tx.id)]
                && (err.None? || err == Some(StoreError(UpdateFailed)))
                && repo.table == (if err.None? then old(repo.table)[tx.id := tx] else old(repo.table))
      ensures tx.id !in old(repo.table) ==>
                && (err == Some(NotFound) || err == Some(StoreError(GetFailed)))
                && repo.issued == old(repo.issued)
                && repo.table == old(repo.table)
      ensures err == Some(NotFound) ==> tx.id !in old(repo.table)
      ensures err.None? ==> tx.id in old(repo.table) && repo.table == old(repo.table)[tx.id := tx]
    {
      var found := repo.GetTransaksiByID(tx.id);
      check := found;
      if found.err.Some? {
        err := found.err;
        return;
      }
      err := repo.UpdateTransaksi(tx);
    }

    /** Reads the row keyed by `id` (`check` is what that read returned).
     *  A failed read, not-found included, is returned as it is and nothing is
     *  written; otherwise the DELETE is issued and its error returned. */
    method DeleteTransaksi(id: int) returns (err: Option<Error>, ghost check: Reply<Transaksi>)
      requires repo.Valid()
      modifies repo
      ensures repo.Valid() && repo.autoIncrement == old(repo.autoIncrement)
      ensures check == Lookup(old(repo.table), id) || check == Fail(StoreError(GetFailed))
      ensures check.err.Some? ==>
                && err == check.err
                && repo.issued == old(repo.issued)
                && repo.table == old(repo.table)
      ensures check.err.None? ==>
                && repo.issued == old(repo.issued) + [DeleteStmt(id)]
                && (err.None? || err == Some(StoreError(DeleteFailed)))
                && repo.table == (if err.None? then old(repo.table) - {id} else old(repo.table))
      ensures id !in old(repo.table) ==>
                && (err == Some(NotFound) || err == Some(StoreError(GetFailed)))
                && repo.issued == old(repo.issued)
                && repo.table == old(repo.table)
      ensures err == Some(NotFound) ==> id !in old(repo.table)
      ensures err.None? ==> id in old(repo.table) && repo.table.Keys == old(repo.table).Keys - {id}
    {
      var found := repo.GetTransaksiByID(id);
      check := found;
      if found.err.Some? {
        err := found.err;
        return;
      }
      err := repo.DeleteTransaksi(id);
    }
  }

  /** A usage check of the contracts above, not a flow of the program: no
   *  handler runs these calls in sequence. On a fresh table it walks one
   *  purchase through create, read back, update, read back, delete, read back,
   *  asserting what the contracts guarantee when the store does not fail the
   *  statements involved. */
  method Lifecycle(total: Float64, newTotal: Float64)
  {
    var repo := new MySQLTransaksiRepo(map[], 1);
    var uc := new TransaksiUseCase(repo);

    var missing := uc.GetTransaksiByID(999);
    assert missing.err == Some(NotFound) || missing.err == Some(StoreError(GetFailed));

    var created, _ := uc.CreateTransaksi(Transaksi(0, 7, 2, total));
    if created.None? {
      var got := uc.GetTransaksiByID(1);
      assert got.err.None? ==> got.value == Some(Transaksi(1, 7, 2, total));

      var updated, _ := uc.UpdateTransaksi(Transaksi(1, 7, 3, newTotal));
      if updated.None? {
        got := uc.GetTransaksiByID(1);
        assert got.err.None? ==> got.value == Some(Transaksi(1, 7, 3, newTotal));

        var deleted, _ := uc.DeleteTransaksi(1);
        if deleted.None? {
          got := uc.GetTransaksiByID(1);
          assert got.err == Some(NotFound) || got.err == Some(StoreError(GetFailed));
        }
      }
    }
  }
}
