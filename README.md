# pyload file database: ordering engine, job dispatch and entity caches

This project models the core of pyload's `module/FileDatabase.py` in Dafny and proves properties of the model.

The file database keeps two SQLite tables:

- `links`: one row per download;
- `packages`: one row per group of links.

Every link belongs to one package and has a position, `linkorder`, in it. Every package sits in the collector or in the queue (the `queue` flag, 0 or 1) and has a position, `packageorder`, there.

`FileDatabaseBackend` runs the SQL of each queued call. `FileHandler` sits in front of it. It keeps three caches:

- a cache of `PyFile` objects;
- a cache of `PyPackage` objects;
- a per-exclusion-set cache of job batches for `getJob`.

## How the model is built

- **Tables.** Both tables are sequences of `Row(id, scope, order, data)` in rowid order.
  - For a link, `scope` is its package. For a package, it is the queue flag.
  - AUTOINCREMENT is modelled by a last-id counter. The table invariant is that ids increase along the table.
- **Statements.** Each SQL statement is a function from the old table to the new one (`tables.dfy`):
  - `UPDATE … SET order = order ± 1 WHERE …` is `Shift` or `ShiftOthers`;
  - `UPDATE … WHERE id = ?` is `SetOrder`, `UpdateLinkRow`, `UpdatePackageRow` or `RestartLinkRow`;
  - `DELETE` is `RemoveId` or `RemoveScope`.
- **Positions.** What the statements do to positions is proved once, on the sequence of orders of one scope (`Orders`, in `positions.dfy`). Those results are then lifted to the tables (`ordering.dfy`).
  - "Dense" means the orders of a scope are exactly 0 … n-1, each once.
- **Backend.** `Backend` is a class whose two table fields are reassigned by its methods, one method per `@queue`/`@async` call. The model runs them in the order they are submitted.
  - The running-maximum loop of `_nextFileOrder` / `_nextPackageOrder` is the method `NextFree`, with its loop invariant.
- **Job query.** The query is `Jobs.JobQuery`: join, filter, `ORDER BY (packageorder, linkorder)`, then `LIMIT 5`.
  - The SQL text of its `NOT IN` list is modelled separately, in `sqllist.dfy`.
- **Job batches.** The batch cache of `FileHandler.getJob` is `JobCache.Dispatch`, which describes one call as a value. The method `FileHandler.GetJob` performs the code's pops, extends and appends and is proved to agree with `Dispatch`.
- **Objects.** `PyFile`, `PyPackage` and `FileHandler` are classes.
  - Constructing a `PyFile` or `PyPackage` registers it in its handler's cache, as the Python constructors do.
  - `releaseLink` / `releasePackage` evict one entry.
  - The `change` decorator is the method `Change`, and every decorated operation calls it first.

Behaviour of the code that the model keeps on purpose:

- **The exhausted-batch marker.** An exhausted batch yields one `None`, the popped `"empty"` marker. The next call runs the query again (`JobCache.EmptyAlternates`).
- **An empty first query.** When the first query for a new exclusion set finds nothing, the code appends `"empty"` and then falls through to `getFile("empty")`. That lookup finds no row, so the call hands out nothing and the marker has been consumed. The model reproduces this: the batch stays empty and the next call queries again.
- **restartFile's two paths.** For a cached file, `FileHandler.restartFile` sets the status to queued and the name to the url, then writes both back. For an uncached file, the backend only sets the status. The model keeps the two paths apart.
- **Lookups inside the backend.** The backend's own `deleteLink` / `deletePackage` first look the row up through its `@queue` `getFile` / `getPackage` (module/FileDatabase.py:529, :537). Those construct a `PyFile` / `PyPackage` from the row, and the constructor registers it in the handler's cache (:680-695, :719, :889).
  - The model gives these nested calls their sequential meaning (`FileHandler.RemoveLink`, `FileHandler.RemovePackage`): a fresh object mirroring the row being deleted is registered, and then the statements run.
  - So after `deleteLink` the file cache holds an object for the deleted file, and after `deletePackage` the package cache holds one for the deleted package. `deletePackage` drops its cache entry before releasing the files, and the backend's lookup puts a fresh one back.
  - In the threaded program a nested `@queue` call is made on the worker thread itself. It waits on `res.get()` (:418-423), which only that thread fills, so it never returns. The model does not capture this.
  - An exception inside a backend call is caught by the worker loop, and the caller gets `None` (:440-450). Without a row, `deleteLink`'s `DELETE` matches nothing and the raise comes after it, when the gap update reads the missing row's order (:539-540), so nothing changes. `deletePackage` deletes the package's links and then raises, so the links go while the packages table stays as it was.

## Model

| member | source | states |
|---|---|---|
| Status.Code | module/FileDatabase.py:35-50 | A name has a code exactly when it is one of the fourteen status names, and the code is that name's index in the list of names. An unknown name (a KeyError) is None. |
| Status.NamesIndexStatusMap | module/FileDatabase.py:35-50 | The map has fourteen entries with the codes 0 … 13. The list of names is its inverse in both directions. |
| Status.CodeOfName | module/FileDatabase.py:35-50 | Looking up the name of a code gives that code back. |
| Status.CodeInjective | module/FileDatabase.py:35-50 | Distinct status names have distinct codes. |
| Status.KnownCodes | module/FileDatabase.py:35-50 | finished is 0, online 2, queued 3 and reconnected 6. These are the codes the job filter and finishIfDone use. |
| Positions.MaxOrder | module/FileDatabase.py:494-496 | The running maximum bounds every order seen, and is either -1 (nothing seen) or one of them. |
| FileDatabase.NextFree | module/FileDatabase.py:494-497 | The loop returns one past the largest order, or 0 for no rows. The result exceeds every order, and one less is an order present in the scope unless it is 0. |
| Positions.DenseNextOrder | module/FileDatabase.py:491-505 | On a dense scope the next free order is the number of rows in it. |
| Positions.DenseInsert | module/FileDatabase.py:507-511 | A dense scope of n rows stays dense when a row with order n joins at any table position. |
| Positions.DenseRemove | module/FileDatabase.py:536-540 | Removing one row and decrementing every order above its own leaves the scope dense. |
| Positions.DenseMove | module/FileDatabase.py:652-655 | reorderLink's three statements on a dense scope with 0 <= k < n keep it dense. They put the moved row at k, and every other row keeps its relative order. |
| Positions.MovedMonotone | module/FileDatabase.py:653-654 | The two bulk updates preserve the relative order of any two rows other than the moved one. |
| Positions.MaxOrderSkipsCleared | module/FileDatabase.py:661 | The -1 that clearPackageOrder writes never raises the next free order of a queue. |
| Positions.DenseFill | module/FileDatabase.py:643-649 | A cleared package given the next free order of a dense queue takes the slot just past the others, and the queue stays dense. |
| Positions.DenseRemoveFill | module/FileDatabase.py:659-662 | Closing a package's gap and then giving it the next free order of the same queue puts it at the tail, n-1, and the queue stays dense. |
| Tables.Find | module/FileDatabase.py:683-685 | The lookup by id returns a position holding that id, or None exactly when no row has it. |
| Tables.OrdersShift | module/FileDatabase.py:533 | A bulk `order ± 1` update of one scope applies the shift to that scope's orders and leaves every other scope alone. |
| Tables.RemoveScopeMembers | module/FileDatabase.py:531 | `DELETE FROM links WHERE package = ?` keeps exactly the rows of other packages. |
| Tables.RemoveIdAt | module/FileDatabase.py:539 | With unique ids, `DELETE … WHERE id = ?` removes exactly the one row with that id. |
| Tables.UpdateLinkRowTwice | module/FileDatabase.py:635-636 | Writing the same values to a link twice is the same as writing them once. |
| Ordering.NextOrderInSpec | module/FileDatabase.py:499-505 | The next free order is 0 for an empty scope, and otherwise one past the largest order of the scope. |
| Ordering.AddRowSpec | module/FileDatabase.py:507-525 | addLink / addPackage append one row. It has the new id and the next free order of its scope, and no other row changes. Ids keep increasing, other scopes keep their orders, and dense scopes stay dense. On a dense scope the new order is the scope's former size. |
| FileDatabase.Backend.NextFileOrder | module/FileDatabase.py:499-505 | The returned order exceeds every linkorder of the package and is 0, or one past an existing linkorder. |
| FileDatabase.Backend.NextPackageOrder | module/FileDatabase.py:491-497 | The same for packageorder within a queue flag. |
| FileDatabase.Backend.AddLink | module/FileDatabase.py:507-511 | The new link gets the next rowid and is appended queued, at the next free order of its package. The packages table does not change. |
| FileDatabase.Backend.AddPackage | module/FileDatabase.py:521-525 | The new package gets the next rowid and the next free order of its queue flag. The links table does not change. |
| Ordering.DeleteRowSpec | module/FileDatabase.py:535-540 | Deleting a row removes exactly that row. Exactly the rows of its scope whose order exceeded its own are decremented, and every other row is unchanged. An unknown id changes nothing. |
| Ordering.DeleteRowOrders | module/FileDatabase.py:539-540 | Afterwards the row's own scope holds its other orders closed up, and every other scope keeps its orders. |
| Ordering.DeleteRowDense | module/FileDatabase.py:535-540 | A delete keeps ids increasing, so a dense scope {0..n-1} becomes dense {0..n-2}. Only the deleted row's scope shrinks. |
| Ordering.RemoveScopeSpec | module/FileDatabase.py:531 | The links delete of deletePackage removes every link of the package and no other. Every other package keeps its links, their orders and its density. |
| FileDatabase.Backend.DeleteLink | module/FileDatabase.py:535-540 | The links table becomes DeleteRow of the old one, and the table invariant holds. |
| FileDatabase.Backend.DeletePackage | module/FileDatabase.py:527-533 | All links of the package go, and the package row is deleted with its queue's gap closed. The id counters do not change. |
| Ordering.MoveRowSpec | module/FileDatabase.py:651-657 | reorderLink(f, k) with 0 <= k < n on a dense package puts f at k. The package's other files change only by the two bulk updates and keep their relative order. The package stays dense, and files of other packages are untouched. |
| Ordering.MoveRowOrders | module/FileDatabase.py:653-655 | The orders of f's package after the three statements are the two bulk updates of the old ones, with f's entry set to k. Every other package keeps its orders. |
| Ordering.MoveRowKeepsRelativeOrder | module/FileDatabase.py:653-654 | The other files of a dense package keep their relative order under reorderLink. |
| Ordering.UpdateLinkRowUnchanged | module/FileDatabase.py:656-657 | When the file object mirrors its row, the `f.sync()` that ends reorderLink writes back what the move left in the row, so the table does not change. Backend.ReorderLink uses it for its contract. |
| FileDatabase.Backend.ReorderLink | module/FileDatabase.py:651-657 | The file object's order becomes the target. The links table becomes the move followed by the write-back of the object. When the object mirrored its row beforehand, the table is exactly the move. |
| FileDatabase.Backend.ReorderPackage | module/FileDatabase.py:642-649 | The packages table becomes the code's statements: -1 for the next free order, and the two shifts with their `packageorder > 0` guard unless noMove. |
| Ordering.ReorderIsMove | module/FileDatabase.py:646-649 | For a target of at least 1 and a non-negative order, the `> 0` guard excludes nothing, and reorderPackage is reorderLink's move. |
| Ordering.ReorderPackageInside | module/FileDatabase.py:642-649 | reorderPackage(p, k) with 1 <= k < n on a dense queue puts p at k. The queue stays dense and other queues are untouched. |
| Ordering.ReorderPackageAppendNoMove | module/FileDatabase.py:644-649 | reorderPackage(p, -1, noMove=True) gives p the next free order of its queue and changes no other row. |
| Ordering.ReorderPackageAppendLeavesGap | module/FileDatabase.py:644-649 | As written, reorderPackage(p, -1) with the shifts on a dense queue of n packages gives p order n. That is the next free order computed before p leaves its slot. Every other package ends below n-1, so slot n-1 is empty and the queue is no longer dense. Other queues keep their orders. |
| Ordering.ReorderPackageToFrontCollides | module/FileDatabase.py:647-648 | As written, moving the second of two packages of a dense queue to position 0 leaves both at 0, so the queue is no longer dense. |
| Ordering.IntendedReorderIsMove | module/FileDatabase.py:647-648 | With the guard read as `>= 0`, reorderPackage to any k >= 0 is reorderLink's move. |
| Ordering.ReorderPackageIntendedDense | module/FileDatabase.py:642-649 | With the `>= 0` guard, reorderPackage(p, k) with 0 <= k < n puts p at k. The queue stays dense, the front included, and other queues are untouched. |
| Ordering.ReorderPackageIntendedAppend | module/FileDatabase.py:644-649 | With -1 read as the last position, reorderPackage(p, -1) with the shifts puts p at n-1. It is reorderLink's move, the queue stays dense and other queues are untouched. |
| Ordering.ClearPackageOrderSpec | module/FileDatabase.py:659-662 | clearPackageOrder sets p's order to -1 and decrements exactly the packages of its queue whose order exceeded p's. Nothing else changes. |
| FileDatabase.Backend.ClearPackageOrder | module/FileDatabase.py:659-662 | The packages table becomes the two statements applied to the package's snapshot. |
| Ordering.SetLocationRowsSpec | module/FileDatabase.py:347-366 | setPackageLocation keeps p in its table row with its data and moves it to the new queue. The old queue's packages above p move down by one. Every other row is unchanged and ids keep increasing. |
| Ordering.SetLocationPlaced | module/FileDatabase.py:356-363 | The resulting table is the old queue with its gap closed and p written into the new queue. p's order is the next free order of the other packages there. |
| Ordering.SetLocationOrders | module/FileDatabase.py:356-363 | Each queue's orders afterwards are those of its other packages, with p's slot added in the target queue. |
| Ordering.SetLocationSameQueue | module/FileDatabase.py:347-366 | Moving p into the queue it is in puts it at the tail, n-1, and the queue stays dense. |
| Ordering.SetLocationOtherQueue | module/FileDatabase.py:347-366 | Moving p into the other queue appends it at position n of that queue. Both queues stay dense. |
| Ordering.SetLocationDense | module/FileDatabase.py:347-366 | Both cases together: p takes the tail slot of the target, and the old and the new queue are both dense. |
| Ordering.SetLocationOthers | module/FileDatabase.py:356-363 | Every queue other than the old and the new one keeps its orders. |
| Ordering.SetLocationSpec | module/FileDatabase.py:347-366 | All of the above at once. p keeps its row and data, gets the queue and its tail position, the old queue closes its gap, both queues are dense, and no other queue changes. |
| Ordering.GapDense | module/FileDatabase.py:662 | The old queue of a dense package, once p's gap is closed, is dense. |
| Ordering.RestartLinkRowSpec | module/FileDatabase.py:664-666 | restartFile sets the link's status to queued and touches nothing else. Ids, packages, orders, url, name and plugin stay, so every package keeps its positions. |
| Ordering.RestartScopeRowsSpec | module/FileDatabase.py:668-670 | restartPackage sets the status of each link of the package to queued and changes nothing else. |
| FileDatabase.Backend.UpdateLink | module/FileDatabase.py:634-636 | The link's row takes the object's url, name, status and package. |
| FileDatabase.Backend.UpdatePackage | module/FileDatabase.py:638-640 | The package's row takes the object's name, folder and queue flag. |
| FileDatabase.Backend.RestartFile | module/FileDatabase.py:664-666 | The links table becomes the restart of that one link. |
| FileDatabase.Backend.RestartPackage | module/FileDatabase.py:668-670 | The links table becomes the restart of all the package's links. |
| Jobs.PackageOf | module/FileDatabase.py:710 | The join finds the package row whose id is the link's package, or no row at all. |
| Jobs.CandidatesMembers | module/FileDatabase.py:710 | The filter keeps exactly the links that are in a queued package, have a non-occupied plugin and a status of 2, 3 or 6. |
| Jobs.CandidatesIdsIncreasing | module/FileDatabase.py:710 | The filtered links keep the increasing ids of the table. |
| Jobs.Insert | module/FileDatabase.py:710 | One step of ORDER BY adds exactly one candidate, with the same multiset plus that candidate. |
| Jobs.InsertSorted | module/FileDatabase.py:710 | Inserting by (packageorder, linkorder) into a sorted sequence keeps it sorted. |
| Jobs.Sort | module/FileDatabase.py:710 | ORDER BY yields a permutation of the candidates, sorted by (packageorder, linkorder). |
| Jobs.SortedCut | module/FileDatabase.py:710 | In the sorted result, everything past the LIMIT sorts no earlier than the last row kept. |
| Jobs.BatchLeavesLater | module/FileDatabase.py:710 | A candidate the LIMIT leaves out sorts no earlier than the batch's last one. |
| Jobs.BatchSpec | module/FileDatabase.py:710 | The batch holds min(5, n) candidates, sorted, drawn from the candidates. It holds all of them when n <= 5, and any left out sorts no earlier than its last one. |
| Jobs.JobQueryEligible | module/FileDatabase.py:698-714 | The query returns at most 5 ids. Each is the id of a link that passes the filter. |
| Jobs.JobQueryDistinct | module/FileDatabase.py:698-714 | The query never returns one link twice. |
| FileDatabase.Backend.GetJob | module/FileDatabase.py:698-714 | The result is the query: at most 5 distinct ids, each of a link that is eligible for the occupied plugins. |
| Jobs.RestartedAreCandidates | module/FileDatabase.py:668-670 | After restartPackage on a queued package, every link of it whose plugin is not occupied passes the job filter. Links of other packages are unchanged. |
| SqlList.BuildNotInList | module/FileDatabase.py:702-708 | The loop builds the literals with no separator between them, because `i` is never incremented. |
| SqlList.ParseQuoteFree | module/FileDatabase.py:706 | The characters of a quote-free plugin name are read one by one into the literal. |
| SqlList.CloseLiteral | module/FileDatabase.py:706 | A closing quote not followed by another quote ends the literal. |
| SqlList.ParseSeparated | module/FileDatabase.py:705-706 | The separated list of quote-free names, read from inside its first literal, yields exactly those names. |
| SqlList.IntendedRoundTrip | module/FileDatabase.py:702-708 | The list with its separators, as the loop means to write it, reads back in SQL as exactly the occupied plugins. |
| SqlList.AsWrittenShortIsIntended | module/FileDatabase.py:702-708 | With at most one occupied plugin the missing separator makes no difference. |
| SqlList.AsWrittenMergesTwo | module/FileDatabase.py:702-708 | With two quote-free plugins a and b, the list as written reads as the single name a'b. |
| Jobs.AsWrittenHandsOutOccupied | module/FileDatabase.py:702-712 | For occupied plugins A and B, the list as written still hands out a queued link of plugin A. The exclusion read as a set withholds it. |
| JobCache.Stack | module/FileDatabase.py:280 | `jobs.reverse()`: entry k of the stack is query id n-1-k. |
| JobCache.StackPop | module/FileDatabase.py:285-286 | Popping the reversed ids hands out the first id and leaves the rest reversed. |
| JobCache.DispatchOthers | module/FileDatabase.py:288-292 | A call for a new exclusion set discards every other batch. A known set leaves the other batches alone. |
| JobCache.DispatchPops | module/FileDatabase.py:271-277 | A cached batch hands out its next id without querying again. |
| JobCache.Drain | module/FileDatabase.py:271-277 | A cached batch is handed out in the query's order, each id once, leaving the batch empty. |
| JobCache.FirstBatchInOrder | module/FileDatabase.py:264-305 | Starting without a batch, the next n calls hand out the query's ids in its order, each once. The call after them queries again. |
| JobCache.EmptyQueryNoWork | module/FileDatabase.py:278-298 | While the query finds nothing, no job is handed out and only markers are cached. |
| JobCache.EmptyAlternates | module/FileDatabase.py:278-283 | With nothing to do the calls alternate. One queries and caches "empty"; the next pops it without querying and hands out nothing. |
| JobCache.ClearedCacheQueries | module/FileDatabase.py:93-99 | After a change empties the cache, the next getJob runs the query and hands out its first id. |
| FileDatabase.FileHandler.NextJob | module/FileDatabase.py:264-298 | The pops, extends and appends on the batch cache give exactly the new cache and the id of Dispatch for the occupied plugins and the current tables. |
| FileDatabase.FileHandler.GetJob | module/FileDatabase.py:264-305 | The new batch cache and the id handed out are those of Dispatch. No id means no file and an unchanged file cache. A cached id gives the cached object; any other id is loaded and registered. |
| FileDatabase.FileHandler.Change | module/FileDatabase.py:93-99 | Every decorated call sets `unchanged` to false and `filecount` to -1, and empties the job cache. |
| FileDatabase.FileHandler.constructor | module/FileDatabase.py:72-90 | A handler starts with empty caches, filecount -1 and a fresh backend. |
| FileDatabase.Backend.constructor | module/FileDatabase.py:403-416 | A backend starts over empty tables. |
| FileDatabase.PyFile.constructor | module/FileDatabase.py:717-729 | A new file object holds the row's values and is registered in the file cache under its id. |
| FileDatabase.PyPackage.constructor | module/FileDatabase.py:887-898 | A new package object holds the row's values and is registered in the package cache under its id. |
| FileDatabase.FileHandler.ReleaseLink | module/FileDatabase.py:194-197 | The file cache loses exactly that id. |
| FileDatabase.FileHandler.ReleasePackage | module/FileDatabase.py:200-203 | The package cache loses exactly that id. |
| FileDatabase.FileHandler.UpdateLink | module/FileDatabase.py:206-208 | The backend writes the object to its row. |
| FileDatabase.FileHandler.LoadFile | module/FileDatabase.py:689-695 | No row gives None and leaves the cache alone. A row gives a new object that mirrors it, now in the file cache. |
| FileDatabase.FileHandler.LoadPackage | module/FileDatabase.py:680-686 | The same for packages and the package cache. |
| FileDatabase.FileHandler.GetFile | module/FileDatabase.py:256-261 | A cached id gives the cached object and leaves the cache alone. Any other id is loaded as LoadFile does. |
| FileDatabase.FileHandler.GetPackage | module/FileDatabase.py:222-228 | The same for packages. |
| FileDatabase.PyFile.Package | module/FileDatabase.py:752-754 | The file's package, from the package cache or loaded. |
| FileDatabase.PyFile.SetStatus | module/FileDatabase.py:756-758 | A known name sets its code and writes the file back. An unknown name raises, and then nothing changes. |
| FileDatabase.PyFile.HasStatus | module/FileDatabase.py:760-761 | For a known name, true exactly when the status is that name's code. An unknown name raises, here None. |
| FileDatabase.PyFile.Sync | module/FileDatabase.py:763-765 | The row takes the object's values. |
| FileDatabase.PyFile.Release | module/FileDatabase.py:767-770 | The file is written back, then leaves the cache. |
| FileDatabase.PyFile.FinishIfDone | module/FileDatabase.py:815-823 | A file still being processed is left alone and false is returned. Otherwise it is marked finished, written back once, released, and true is returned. |
| FileDatabase.FileHandler.RemoveLink | module/FileDatabase.py:535-540 | The backend's deleteLink: the row is deleted with its package's gap closed. A row found by the inner getFile leaves a fresh object mirroring it in the file cache, and no other entry changes. Without a row the cache is unchanged. |
| FileDatabase.FileHandler.DeleteLink | module/FileDatabase.py:175-191 | ok holds exactly when the file and its package are found. Then the row is deleted with its package's gap closed, and the file cache holds an object for the deleted id: a fresh one mirroring the deleted row if it existed. Otherwise the table is unchanged. The call always resets the change state, no other file cache entry changes, and the only id the file cache can gain is this one. Every old package cache entry stays, and the only package it can gain is the file's own. |
| FileDatabase.FileHandler.DeletePackage | module/FileDatabase.py:151-172 | ok holds exactly when the package is found. Then the package row is deleted with its queue's gap closed. The links left are exactly the old links of other packages, minus cached files of this package, and those files leave the file cache. If the package had a row, the package cache ends with a fresh object mirroring that old row, registered by the backend's own lookup, and no other entry changes. Without a row the id is simply gone. When ok is false, the tables and both caches are unchanged. |
| FileDatabase.FileHandler.ReleaseAndRemove | module/FileDatabase.py:162-169 | The cached files of the package are released and the backend's deletePackage runs. The tables and caches end as DeletePackage states, starting from a package cache without the id. |
| FileDatabase.FileHandler.RemovePackage | module/FileDatabase.py:527-533 | The backend's deletePackage: the package's links go and the package row is deleted with its queue's gap closed. A row found by the inner getPackage leaves a fresh object mirroring it in the package cache. |
| FileDatabase.FileHandler.ReleaseFilesOf | module/FileDatabase.py:162-167 | Each cached file of the package is written back and released. The cache loses exactly those files, which keep their package in the table, and no other row changes. |
| FileDatabase.ReleasedThenRemoved | module/FileDatabase.py:162-169 | The rows deletePackage's DELETE leaves are exactly the old rows of other packages, minus the files released first. |
| FileDatabase.FileHandler.RestartFile | module/FileDatabase.py:334-345 | A cached file gets status queued and its url as name, is written back and stays cached. Any other file's row is restarted by the backend and the file is loaded. ok says whether the file and its package exist. |
| FileDatabase.FileHandler.MoveToQueue | module/FileDatabase.py:356-363 | The backend calls of setPackageLocation turn the packages table into SetLocationRows. |
| FileDatabase.FileHandler.SetPackageLocation | module/FileDatabase.py:347-369 | ok holds exactly when the package exists. Then the packages table becomes SetLocationRows and the package keeps its position in the table. It is reloaded into the package cache, mirroring its new row, and other cache entries stay. |

## Left out

- The worker thread, its queues and the `queue` / `async` decorators (module/FileDatabase.py:400-451). Each backend call is a sequential method run in submission order, and the lock of FileHandler is left out with them.
- SQLite I/O: the connection, table creation, `commit`, `syncSave` and the version check. The backend starts over empty tables instead of the stored ones.
- `formatSize`, `formatWait`, `formatETA`, `getSpeed`, `getETA`, `getPercent` and `getSize`. They use floating point, the clock and plugin objects.
- `abortDownload` (a busy wait on the thread manager) and `initPlugin` (dynamic plugin loading). Where deleteLink, deletePackage and restartFile call `abortDownload`, the model does nothing. finishIfDone takes the set of processing ids as a parameter.
- `pullManager` events and the `statusMsg` translations. They are an external notification sink and i18n. The lookups done only to build an event are modelled, because they load and register objects. updateLink's own event lookup (module/FileDatabase.py:209) is left out: it registers the file's package object, and without a package it raises after the row was written. `Sync`, `Release`, `SetStatus` and `FinishIfDone` do not touch the package cache in the model.
- The backend's `addLinks`: its `for x, o in links, orders` does not pair links with orders.
- `FileHandler.reorderFile`, which calls a backend method that does not exist. The backend's `reorderLink` is modelled directly.
- FileHandler's own `addLinks`, `addPackage`, `updatePackage`, `reorderPackage`, `restartPackage`, `getFileCount` and the data/dict getters, as well as `PyFile`/`PyPackage` `toDict`, `toDbDict`, `delete` and `PyPackage.sync`/`release`. They are formatting or thin wrappers outside the modelled core. Their backend calls are modelled.
- Columns the core never decides on: `size`, `error`, `site`, `password` and `priority`.
- The `__main__` benchmark.
- JobQuery: the model's query reads the `NOT IN` list as a set of plugin names. Its relation to the SQL text the code builds is stated separately (see Findings).
- FileDatabase.FileHandler.DeletePackage: the package lookup made by each released file's updateLink is not modelled. Its lasting effect, a package object in the cache, is overwritten by the backend's own lookup when the package has a row. A cached file whose package has no row makes that release raise in the code, and the model does not capture the raise.
- Jobs.Sort: `ORDER BY packageorder, linkorder` leaves the order of equal keys to SQLite. The model breaks ties by table (rowid) order, and Backend.GetJob's result is that query. Ties occur only when positions are not dense.
- FileDatabase.FileHandler.RestartFile: for a cached file, the model does not state which objects the following package lookup registers beyond what GetPackage promises.

## Findings

| source | as written | input that shows it | evidently intended | confidence | as-written member | corrected member |
|---|---|---|---|---|---|---|
| module/FileDatabase.py:647-648 | both shifts of reorderPackage carry `AND packageorder > 0`, so the package at position 0 is never moved up | a queue holding packages at orders 0 and 1; reorderPackage(second, 0) leaves both at order 0 | the guard reads `packageorder >= 0`, so only a package cleared to -1 is kept out of the shifts | medium, not executed | Ordering.ReorderPackageToFrontCollides | Ordering.ReorderPackageIntendedDense |
| module/FileDatabase.py:702-708 | the loop that builds the `NOT IN (...)` list never increments `i`, so no ", " separator is written | occupied plugins A and B give `('A''B')`, which SQL reads as the one name A'B, so a link of plugin A is still handed out | the names separated by ", ", read back as exactly the occupied plugins | high, not executed | Jobs.AsWrittenHandsOutOccupied | SqlList.IntendedRoundTrip |
| module/FileDatabase.py:644-649 | for position -1, reorderPackage takes `_nextPackageOrder(p.queue)` before the first shift frees p's own slot, so p lands one past the last position | a queue holding A at order 0 and B at 1; reorderPackage(A, -1) gives A order 2 and B order 0, leaving slot 1 empty | -1 means the last position n-1 | medium, not executed | Ordering.ReorderPackageAppendLeavesGap | Ordering.ReorderPackageIntendedAppend |

The backend keeps reorderPackage as written: both the guard and the -1 case. Its only caller in the modelled core, setPackageLocation, passes noMove=True, and the two versions agree there (`Ordering.ReorderPackageAppendNoMove`). FileHandler's own reorderPackage, which passes noMove=False, is not part of the model. The job query used by the rest of the model excludes plugins as a set, which is the corrected reading.
