/** Package barang, use-case side: the operations the HTTP handlers call.
 *  Reads and create go straight to the repository; update and delete first
 *  read the row by id and write only if that read succeeded. */
module BarangUseCase {
  import opened Common
  import opened BarangRepository

  class BarangUseCase {
    const repo: MySQLBarangRepo

    constructor (repo: MySQLBarangRepo)
      ensures this.repo == repo
    {
      this.repo := repo;
    }

    /** The repository's list, or its error with a nil list. */
    method GetAllBarang() returns (r: Reply<seq<Barang>>, ghost cursor: Cursor)
      ensures CursorOver(cursor, repo.table)
      ensures r == Scan(cursor)
      ensures WellFormed(r)
      ensures r.value.Some? ==> Enumerates(r.value.value, repo.table)
    {
      var listed;
      listed, cursor := repo.GetAllBarang();
      r := Propagate(listed);
    }

    /** Hands the entity to the repository unchecked and returns its error. */
    method CreateBarang(b: Barang) returns (err: Option<Error>, ghost newId: int)
      requires repo.Valid()
      modifies repo
      ensures repo.Valid()
      ensures repo.issued == old(repo.issued) + [InsertStmt(b.name, b.price)]
      ensures err.None? || err == Some(StoreError(CreateFailed))
      ensures err.None? ==>
                && newId == old(repo.autoIncrement) && newId !in old(repo.table)
                && repo.table == Inserted(old(repo.table), newId, b)
                && repo.autoIncrement == old(repo.autoIncrement) + 1
      ensures err.Some? ==>
                repo.table == old(repo.table) && repo.autoIncrement == old(repo.autoIncrement)
    {
      err, newId := repo.CreateBarang(b);
    }

    /** The repository's row for `id`, or its error with a nil row. */
    method GetBarangByID(id: int) returns (r: Reply<Barang>)
      ensures r == Lookup(repo.table, id) || r == Fail(StoreError(GetFailed))
      ensures WellFormed(r)
      ensures r.err == Some(NotFound) ==> id !in repo.table
      ensures r.value.Some? ==> id in repo.table && r.value.value == repo.table[id]
      ensures repo.Valid() && r.value.Some? ==> r.value.value.id == id
    {
      var found := repo.GetBarangByID(id);
      r := Propagate(found);
    }

    /** Reads the row keyed by `b.id` (`check` is what that read returned).
     *  A failed read, not-found included, is returned as it is and nothing is
     *  written; otherwise the UPDATE is issued and its error returned. */
    method UpdateBarang(b: Barang) returns (err: Option<Error>, ghost check: Reply<Barang>)
      requires repo.Valid()
      modifies repo
      ensures repo.Valid() && repo.autoIncrement == old(repo.autoIncrement)
      ensures check == Lookup(old(repo.table), b.id) || check == Fail(StoreError(GetFailed))
      ensures check.err.Some? ==>
                && err == check.err
                && repo.issued == old(repo.issued)
                && repo.table == old(repo.table)
      ensures check.err.None? ==>
                && repo.issued == old(repo.issued) + [UpdateStmt(b.name, b.price, b.id)]
                && (err.None? || err == Some(StoreError(UpdateFailed)))
                && repo.table == (if err.None? then old(repo.table)[b.id := b] else old(repo.table))
      ensures b.id !in old(repo.table) ==>
                && (err == Some(NotFound) || err == Some(StoreError(GetFailed)))
                && repo.issued == old(repo.issued)
                && repo.table == old(repo.table)
      ensures err == Some(NotFound) ==> b.id !in old(repo.table)
      ensures err.None? ==> b.id in old(repo.table) && repo.table == old(repo.table)[b.id := b]
    {
      var found := repo.GetBarangByID(b.id);
      check := found;
      if found.err.Some? {
        err := found.err;
        return;
      }
      err := repo.UpdateBarang(b);
    }

    /** Reads the row keyed by `id` (`check` is what that read returned).
     *  A failed read, not-found included, is returned as it is and nothing is
     *  written; otherwise the DELETE is issued and its error returned. */
    method DeleteBarang(id: int) returns (err: Option<Error>, ghost check: Reply<Barang>)
      requires repo.Valid()
      modifies repo
      ensures repo.Valid() && repo.autoIncrement == old(repo.autoIncrement)
      ensures check == Lookup(old(repo.table), id) || check == Fail(StoreError(GetFailed))
      ensures check.err.Some? ==>
                && err == check.err
                && repo.issued == old(repo.issued)
                && repo.table == old(repo.table)
      ensures check.err.None? ==>
                && repo.issued == old(repo.issued) + [DeleteStmt(id)]
                && (err.None? || err == Some(StoreError(DeleteFailed)))
                && repo.table == (if err.None? then old(repo.table) - {id} else old(repo.table))
      ensures id !in old(repo.table) ==>
                && (err == Some(NotFound) || err == Some(StoreError(GetFailed)))
                && repo.issued == old(repo.issued)
                && repo.table == old(repo.table)
      ensures err == Some(NotFound) ==> id !in old(repo.table)
      ensures err.None? ==> id in old(repo.table) && repo.table.Keys == old(repo.table).Keys - {id}
    {
      var found := repo.GetBarangByID(id);
      check := found;
      if found.err.Some? {
        err := found.err;
        return;
      }
      err := repo.DeleteBarang(id);
    }
  }

  /** A usage check of the contracts above, not a flow of the program: no
   *  handler runs these calls in sequence. On a fresh table it walks one
   *  item through create, read back, update, read back, delete, read back,
   *  asserting what the contracts guarantee when the store does not fail the
   *  statements involved. */
  method Lifecycle(pen: Float64, pencil: Float64)
  {
    var repo := new MySQLBarangRepo(map[], 1);
    var uc := new BarangUseCase(repo);

    var missing := uc.GetBarangByID(999);
    assert missing.err == Some(NotFound) || missing.err == Some(StoreError(GetFailed));

    var created, _ := uc.CreateBarang(Barang(0, "Pen", pen));
    if created.None? {
      var got := uc.GetBarangByID(1);
      assert got.err.None? ==> got.value == Some(Barang(1, "Pen", pen));

      var updated, _ := uc.UpdateBarang(Barang(1, "Pencil", pencil));
      if updated.None? {
        got := uc.GetBarangByID(1);
        assert got.err.None? ==> got.value == Some(Barang(1, "Pencil", pencil));

        var deleted, _ := uc.DeleteBarang(1);
        if deleted.None? {
          got := uc.GetBarangByID(1);
          assert got.err == Some(NotFound) || got.err == Some(StoreError(GetFailed));
        }
      }
    }
  }
}
