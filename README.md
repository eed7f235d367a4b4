# A model of the tokovan inventory backend's service and storage layers

The backend keeps two kinds of record: *barang* (an item with a name and a
price) and *transaksi* (a purchase: the id of the item bought, a quantity and
a total). Each kind has a repository that runs one parameterised SQL
statement per operation against a MySQL table. Each kind also has a use case
that the HTTP handlers call. The use cases pass reads and creates straight
through. Before an update or a delete, a use case reads the row by id and
writes only if that read succeeded. A failed read, "not found" included, is
returned as it is.

The model has one module per source file:

- `Common` (common.dfy) holds the shared pieces. `Reply<T>` is Go's
  `(value, error)` pair, with `None` standing for nil. `Error` is either the
  not-found sentinel or a `StoreError` labelled with the repository step
  that failed. `Float64` is an opaque float column, kept as its bits.
  `Propagate` is the use cases' `if err != nil { return nil, err }` guard.
  `StoreFails` is the store's freedom to refuse any statement, chosen
  nondeterministically.
- `BarangRepository` and `TransaksiRepository` hold three things. First, the
  entity and a `Table` (rows by primary key). Second, what each statement
  does when the store executes it: `Lookup`, `Inserted`, `Updated`,
  `Deleted`. Third, the list query. A `Cursor` is the store's answer to the
  SELECT: the delivered rows, any of which may fail to scan, plus the
  iterator's error flag. `CursorOver` says which answers a store holding a
  given table may give, and `Scan` says what the scan loop makes of an
  answer. The class `MySQL…Repo` owns the table, the table's AUTO_INCREMENT
  counter and a ghost log `issued` of every write statement it sent. Its
  methods are proved against those functions.
- `BarangUseCase` and `TransaksiUseCase` hold the use-case classes. Their
  `Update…`/`Delete…` methods also return, as a ghost value `check`, what
  the existence read returned. That makes "the read's error is returned
  unchanged and no write is issued" a statement about the log and the
  table. Each module ends with a method `Lifecycle`, a usage check of
  those contracts rather than a flow of the program (no handler makes these
  calls in sequence): on a fresh table it creates, reads back, updates,
  reads back, deletes and reads back one record, asserting at each step what
  the contracts guarantee when the store does not fail.

The store's behaviour is modelled as follows:

- Any statement may fail. A failed statement leaves the table unchanged. A
  single-statement write is assumed to be atomic.
- A SELECT by id that fails for a reason other than "no rows" gives a
  `GetFailed` store error, never the not-found sentinel. So the repository's
  get-by-id returns not-found only when the id is absent. An absent id gives
  not-found or that store error. A present id gives the stored row or that
  store error.
- The list query's rows come in an order the store chooses. Each row comes at
  most once, and every row comes unless the iterator reports an error.

## Model

| member | source | states |
|---|---|---|
| Common.Propagate | internal/barang/usecase.go:21-25 | the error is passed on unchanged; a non-nil error comes with a nil value; with no error the value is passed on unchanged; a reply already in repository shape is returned as it is |
| Common.StoreFails | internal/barang/repository.go:29-31 | a method with no contract of its own: the store may refuse any statement, so every `err != nil` branch of both repositories is reachable. Each repository method's `ensures` states what follows on each outcome |
| BarangRepository.Lookup | internal/barang/repository.go:61-71 | not-found exactly when no row has the id; otherwise the stored row, whose id is the requested one |
| BarangRepository.LookupAfterUpdate | internal/barang/repository.go:74-80 | after the UPDATE, reading the updated id gives the new name and price if the row existed; every other read is as before; an absent id changes nothing |
| BarangRepository.LookupAfterDelete | internal/barang/repository.go:83-89 | after the DELETE, the id reads as not-found and every other id reads as before |
| BarangRepository.LookupAfterInsert | internal/barang/repository.go:28-34 | after the INSERT under a fresh key, that key reads as the entity with only its id replaced; every other id reads as before |
| BarangRepository.Inserted | internal/barang/repository.go:29 | the INSERT: the keys become the old keys plus the assigned one; that key holds the entity with only its id replaced by the assigned one; every other row is as before. Read back by `LookupAfterInsert`, reached by `Create…` |
| BarangRepository.Updated | internal/barang/repository.go:75 | the UPDATE ... WHERE id: the set of keys is unchanged; the row keyed by the entity's id, if present, takes the new name and price and keeps its key; every other row is as before; on a table keyed by id, the updated row equals the entity. Read back by `LookupAfterUpdate`, reached by `Update…` |
| BarangRepository.Deleted | internal/barang/repository.go:84 | the DELETE ... WHERE id: the keys become the old keys minus that id; every remaining row is as before; a table keyed by id stays so. Read back by `LookupAfterDelete`, reached by `Delete…` |
| BarangRepository.CursorOver | internal/barang/repository.go:38-45 | a predicate with no contract of its own: the answers a store holding the table may give to the list SELECT (each row at most once, in any order, a scanned row as stored, every row unless the iterator reports an error). `ScanEnumerates` and `ScanOfCompleteCursor` describe it, and `GetAll…` ensures its cursor satisfies it |
| BarangRepository.Scan | internal/barang/repository.go:37-58 | the list query's outcome: value exactly when no error; any error is a store error, never not-found; a refused SELECT gives the get-all failure. `ScanRowsOutcome` and `ScanEnumerates` describe it further, and `GetAll…` is proved equal to it |
| BarangRepository.ScanRows | internal/barang/repository.go:44-57 | the scan loop over the delivered rows: value exactly when no error; the error is the scan or the iteration failure; a successful result has one entity per row. `ScanRowsOutcome` gives the full description |
| BarangRepository.ScanRowsOutcome | internal/barang/repository.go:44-57 | the scan loop fails with a scan error if any row is unscannable, else with an iteration error if the iterator reported one; otherwise it returns one entity per row, in order; never a value together with an error |
| BarangRepository.ScanEnumerates | internal/barang/repository.go:37-57 | a successful list over any answer the store may give holds every stored row exactly once, each as stored |
| BarangRepository.ScanOfEmptyTable | internal/barang/repository.go:44-57 | on an empty table, a list query that is not refused and has no iteration error returns the empty list and no error |
| BarangRepository.ScanOfCompleteCursor | internal/barang/repository.go:37-57 | every complete, error-free enumeration of the table is an answer the store may give, and scanning it returns exactly those rows in that order |
| BarangRepository.MySQLBarangRepo.constructor | internal/barang/repository.go:22-24 | the repository starts on the given table and counter, with no statement issued |
| BarangRepository.MySQLBarangRepo.CreateBarang | internal/barang/repository.go:28-34 | logs an INSERT of name and price only; on success the row is added under the fresh auto-increment key, and the caller's id is ignored; on failure nothing changes and the error is the create failure |
| BarangRepository.MySQLBarangRepo.GetAllBarang | internal/barang/repository.go:37-58 | the result is `Scan` applied to an answer the store may give for the current table; a successful result enumerates the table |
| BarangRepository.MySQLBarangRepo.GetBarangByID | internal/barang/repository.go:61-71 | either the lookup of the current table (the row, or not-found when absent) or the distinct get-failed store error, never both a value and an error; a returned row carries the requested id |
| BarangRepository.MySQLBarangRepo.UpdateBarang | internal/barang/repository.go:74-80 | logs the UPDATE; on success the row keyed by the entity's id takes the new name and price; success with the table unchanged when the id is absent; on failure the table is unchanged |
| BarangRepository.MySQLBarangRepo.DeleteBarang | internal/barang/repository.go:83-89 | logs the DELETE; on success exactly that key is removed, and an absent key is a successful no-op; on failure the table is unchanged |
| BarangUseCase.BarangUseCase.constructor | internal/barang/usecase.go:13-17 | the use case holds the given repository |
| BarangUseCase.BarangUseCase.GetAllBarang | internal/barang/usecase.go:20-26 | returns the repository's list outcome unchanged: a nil list on error, an enumeration of the table on success |
| BarangUseCase.BarangUseCase.CreateBarang | internal/barang/usecase.go:29-31 | no precondition on the entity; the same INSERT, table change and error as the repository's create |
| BarangUseCase.BarangUseCase.GetBarangByID | internal/barang/usecase.go:34-40 | the repository's lookup outcome unchanged: not-found only for an absent id, the stored row (with the requested id) on success, a nil row with any error |
| BarangUseCase.BarangUseCase.UpdateBarang | internal/barang/usecase.go:43-48 | reads by the entity's id first; a failed read's error is returned unchanged with no statement issued and no change; otherwise exactly one UPDATE is issued and its outcome returned; an absent id gives not-found (or the read's store error) with the table unchanged; success means the row was present and now holds the new name and price, other rows unchanged |
| BarangUseCase.BarangUseCase.DeleteBarang | internal/barang/usecase.go:51-56 | reads by id first; a failed read's error is returned unchanged with no DELETE issued and no change; otherwise exactly one DELETE is issued and its outcome returned; success means the id was present and exactly that key is gone |
| TransaksiRepository.Lookup | internal/transaksi/repository.go:61-71 | not-found exactly when no row has the id; otherwise the stored row, whose id is the requested one |
| TransaksiRepository.LookupAfterUpdate | internal/transaksi/repository.go:74-80 | after the UPDATE, reading the updated id gives the new item id, quantity and total if the row existed; every other read is as before; an absent id changes nothing |
| TransaksiRepository.LookupAfterDelete | internal/transaksi/repository.go:83-89 | after the DELETE, the id reads as not-found and every other id reads as before |
| TransaksiRepository.LookupAfterInsert | internal/transaksi/repository.go:28-34 | after the INSERT under a fresh key, that key reads as the entity with only its id replaced; every other id reads as before |
| TransaksiRepository.Inserted | internal/transaksi/repository.go:29 | the INSERT: the keys become the old keys plus the assigned one; that key holds the entity with only its id replaced by the assigned one; every other row is as before. Read back by `LookupAfterInsert`, reached by `Create…` |
| TransaksiRepository.Updated | internal/transaksi/repository.go:75 | the UPDATE ... WHERE id: the set of keys is unchanged; the row keyed by the entity's id, if present, takes the new item id, quantity and total and keeps its key; every other row is as before; on a table keyed by id, the updated row equals the entity. Read back by `LookupAfterUpdate`, reached by `Update…` |
| TransaksiRepository.Deleted | internal/transaksi/repository.go:84 | the DELETE ... WHERE id: the keys become the old keys minus that id; every remaining row is as before; a table keyed by id stays so. Read back by `LookupAfterDelete`, reached by `Delete…` |
| TransaksiRepository.CursorOver | internal/transaksi/repository.go:38-45 | a predicate with no contract of its own: the answers a store holding the table may give to the list SELECT (each row at most once, in any order, a scanned row as stored, every row unless the iterator reports an error). `ScanEnumerates` and `ScanOfCompleteCursor` describe it, and `GetAll…` ensures its cursor satisfies it |
| TransaksiRepository.Scan | internal/transaksi/repository.go:37-58 | the list query's outcome: value exactly when no error; any error is a store error, never not-found; a refused SELECT gives the get-all failure. `ScanRowsOutcome` and `ScanEnumerates` describe it further, and `GetAll…` is proved equal to it |
| TransaksiRepository.ScanRows | internal/transaksi/repository.go:44-57 | the scan loop over the delivered rows: value exactly when no error; the error is the scan or the iteration failure; a successful result has one entity per row. `ScanRowsOutcome` gives the full description |
| TransaksiRepository.ScanRowsOutcome | internal/transaksi/repository.go:44-57 | the scan loop fails with a scan error if any row is unscannable, else with an iteration error if the iterator reported one; otherwise it returns one entity per row, in order |
| TransaksiRepository.ScanEnumerates | internal/transaksi/repository.go:37-57 | a successful list over any answer the store may give holds every stored row exactly once, each as stored |
| TransaksiRepository.ScanOfEmptyTable | internal/transaksi/repository.go:44-57 | on an empty table, a list query that is not refused and has no iteration error returns the empty list and no error |
| TransaksiRepository.ScanOfCompleteCursor | internal/transaksi/repository.go:37-57 | every complete, error-free enumeration of the table is an answer the store may give, and scanning it returns exactly those rows in that order |
| TransaksiRepository.MySQLTransaksiRepo.constructor | internal/transaksi/repository.go:22-24 | the repository starts on the given table and counter, with no statement issued |
| TransaksiRepository.MySQLTransaksiRepo.CreateTransaksi | internal/transaksi/repository.go:28-34 | logs an INSERT of item id, quantity and total only, with no check that the item exists; on success the row is added under the fresh auto-increment key, and the caller's id is ignored; on failure nothing changes |
| TransaksiRepository.MySQLTransaksiRepo.GetAllTransaksi | internal/transaksi/repository.go:37-58 | the result is `Scan` applied to an answer the store may give for the current table; a successful result enumerates the table |
| TransaksiRepository.MySQLTransaksiRepo.GetTransaksiByID | internal/transaksi/repository.go:61-71 | either the lookup of the current table (the row, or not-found when absent) or the distinct get-failed store error; a returned row carries the requested id |
| TransaksiRepository.MySQLTransaksiRepo.UpdateTransaksi | internal/transaksi/repository.go:74-80 | logs the UPDATE; on success the row keyed by the entity's id takes the new item id, quantity and total; success with the table unchanged when the id is absent; on failure the table is unchanged |
| TransaksiRepository.MySQLTransaksiRepo.DeleteTransaksi | internal/transaksi/repository.go:83-89 | logs the DELETE; on success exactly that key is removed, and an absent key is a successful no-op; on failure the table is unchanged |
| TransaksiUseCase.TransaksiUseCase.constructor | internal/transaksi/usecase.go:13-17 | the use case holds the given repository |
| TransaksiUseCase.TransaksiUseCase.GetAllTransaksi | internal/transaksi/usecase.go:20-26 | returns the repository's list outcome unchanged: a nil list on error, an enumeration of the table on success |
| TransaksiUseCase.TransaksiUseCase.CreateTransaksi | internal/transaksi/usecase.go:29-31 | no precondition on the entity, not even that its item exists; the same INSERT, table change and error as the repository's create |
| TransaksiUseCase.TransaksiUseCase.GetTransaksiByID | internal/transaksi/usecase.go:34-40 | the repository's lookup outcome unchanged: not-found only for an absent id, the stored row (with the requested id) on success, a nil row with any error |
| TransaksiUseCase.TransaksiUseCase.UpdateTransaksi | internal/transaksi/usecase.go:43-48 | reads by the entity's id first; a failed read's error is returned unchanged with no statement issued and no change; otherwise exactly one UPDATE is issued and its outcome returned; an absent id gives not-found (or the read's store error) with the table unchanged; success means the row was present and now holds the new values, other rows unchanged |
| TransaksiUseCase.TransaksiUseCase.DeleteTransaksi | internal/transaksi/usecase.go:51-56 | reads by id first; a failed read's error is returned unchanged with no DELETE issued and no change; otherwise exactly one DELETE is issued and its outcome returned; success means the id was present and exactly that key is gone |

## Left out

- The HTTP layer in cmd/tokovanapp/main.go is not part of this model. That covers routing, JSON decoding and encoding, parsing ids from the path, status codes and server start. It also covers the handlers' uneven mapping of get-by-id errors to status codes, which is transport behaviour.
- The database driver and connection setup are not modelled; the model describes what each statement does to the table instead. Closing the row set is left out too: it has no effect the code observes.
- Error message texts are not modelled. An error is not-found or a store error labelled with the step that failed.
- Concurrency is left out. Requests are modelled one at a time, so the gap between the existence read and the write in update and delete, which a concurrent request could slip into, is not modelled.
- Both packages define their own not-found sentinel, and internal/app/errors.go defines an unused third one. The model has one `NotFound`, because errors of the two packages are never compared with each other.
- The repository interfaces are not modelled as separate abstractions. Each use case holds the MySQL repository class, so its contracts are stated for that implementation. `Common.Propagate` states the guard for any reply an implementation could return.
- Price and total are float64 values that are only stored and echoed. The model keeps them as opaque 64-bit patterns, so no floating-point behaviour is modelled.
- Ids and quantities are Go `int`, which is platform-sized (64 bits on 64-bit targets, 32 bits on 32-bit ones); the model uses unbounded integers, because nothing computes on them.
- The AUTO_INCREMENT counter is modelled as a plain counter that only a successful insert advances. A real server may also use up values on a failed insert. The source never observes the assigned id, so create returns it only as a ghost value.
- Entities are passed by value rather than by pointer, so aliasing of the Go structs is not modelled. As in the source, the entity passed to create is not updated with the new id.
- With no rows, Go returns a nil slice, which the list handler encodes as JSON `null` rather than `[]`; the model returns the empty sequence and does not tell nil and empty apart. The difference shows only at the transport layer, which is not part of this model.
