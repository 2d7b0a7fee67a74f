/**
 * The objects of the file database: the backend that owns the `links` and
 * `packages` tables and runs the SQL of each queued call, the PyFile and
 * PyPackage objects that register themselves in the handler's caches, and
 * the FileHandler with its entity caches and job batch cache.
 */
module FileDatabase {
  import opened Positions
  import opened Tables
  import opened Ordering
  import opened Status
  import opened Jobs
  import opened JobCache

  /** Every id of the table is at most `bound`, the last AUTOINCREMENT value. */
  ghost predicate IdsAtMost<D>(rows: seq<Row<D>>, bound: int)
  {
    forall i :: 0 <= i < |rows| ==> rows[i].id <= bound
  }

  /** A statement that rewrites rows in place keeps the id invariants. */
  lemma {:induction false} SameIds<D>(a: seq<Row<D>>, b: seq<Row<D>>, bound: int)
    requires |a| == |b| && forall i :: 0 <= i < |a| ==> a[i].id == b[i].id
    requires IdsIncreasing(a) && IdsAtMost(a, bound)
    ensures IdsIncreasing(b) && IdsAtMost(b, bound)
    ensures forall k :: Find(a, k) == Find(b, k)
  {
    forall k
      ensures Find(a, k) == Find(b, k)
    {
      FindSameIds(a, b, k);
    }
  }

  /** The loop of `_nextFileOrder` / `_nextPackageOrder` over the selected orders. */
  method NextFree(rs: seq<int>) returns (o: int)
    ensures o == NextOrder(rs)
    ensures o >= 0 && forall i :: 0 <= i < |rs| ==> rs[i] < o
    ensures o == 0 || o - 1 in rs
  {
    o := -1;
    var i := 0;
    while i < |rs|
      invariant 0 <= i <= |rs|
      invariant o == MaxOrder(rs[..i])
    {
      assert rs[..i + 1][..i] == rs[..i];
      if rs[i] > o {
        o := rs[i];
      }
      i := i + 1;
    }
    assert rs[..|rs|] == rs;
    o := o + 1;
  }

  /**
   * The links of a deleted package, and the cached files of it that were
   * written back first with that package id, are exactly the rows that
   * `DELETE FROM links WHERE package = ?` removes.
   */
  lemma {:induction false} ReleasedThenRemoved(before: seq<LinkRow>, after: seq<LinkRow>, id: int, released: set<int>)
    requires |after| == |before|
    requires forall i :: 0 <= i < |before| ==> after[i].id == before[i].id
    requires forall i :: 0 <= i < |before| ==>
      if before[i].id in released then after[i].scope == id else after[i] == before[i]
    ensures forall x :: x in RemoveScope(after, id) <==> x in before && x.scope != id && x.id !in released
  {
    forall x
      ensures x in RemoveScope(after, id) <==> x in before && x.scope != id && x.id !in released
    {
      RemoveScopeMembers(after, id, x);
      if x in after && x.scope != id {
        var i :| 0 <= i < |after| && after[i] == x;
        assert before[i] == x;
      }
      if x in before && x.scope != id && x.id !in released {
        var i :| 0 <= i < |before| && before[i] == x;
        assert after[i] == x;
      }
    }
  }

  /**
   * The backend calls of setPackageLocation, one by one: the cleared table
   * keeps every id in place, and the result is the re-read row written back
   * with the new queue flag and appended to that queue.
   */
  lemma {:induction false} SetLocationSteps(rows: seq<PackageRow>, i: nat, queue: int)
    requires IdsIncreasing(rows) && i < |rows|
    ensures var c := ClearPackageOrderRows(rows, rows[i]);
      && |c| == |rows| && (forall t :: 0 <= t < |rows| ==> c[t].id == rows[t].id)
      && SetLocationRows(rows, rows[i].id, queue)
         == ReorderPackageRows(UpdatePackageRow(c, rows[i].id, c[i].data.name, c[i].data.folder, queue),
                               Row(rows[i].id, queue, c[i].order, c[i].data), -1, true)
  {
    FindAt(rows, i);
  }

  // ---------------------------------------------------------------------------

  /** FileDatabaseBackend: the two tables and the statements of each queued call. */
  class Backend {
    var links: seq<LinkRow>
    var packages: seq<PackageRow>
    /** The last rowid each AUTOINCREMENT table has handed out. */
    var lastLinkId: int
    var lastPackageId: int

    ghost predicate Valid()
      reads this
    {
      && IdsIncreasing(links) && IdsAtMost(links, lastLinkId)
      && IdsIncreasing(packages) && IdsAtMost(packages, lastPackageId)
    }

    /** A backend over empty tables. */
    constructor ()
      ensures Valid() && links == [] && packages == []
    {
      links := [];
      packages := [];
      lastLinkId := 0;
      lastPackageId := 0;
    }

    /** `_nextFileOrder`: one past the largest linkorder of the package, or 0. */
    method NextFileOrder(package: int) returns (o: int)
      ensures o == NextOrderIn(links, package)
      ensures o >= 0 && forall i :: 0 <= i < |links| && links[i].scope == package ==> links[i].order < o
      ensures o == 0 || exists i :: 0 <= i < |links| && links[i].scope == package && links[i].order == o - 1
    {
      o := NextFree(Orders(links, package));
      NextOrderInSpec(links, package);
    }

    /** `_nextPackageOrder`: one past the largest packageorder of the queue flag, or 0. */
    method NextPackageOrder(queue: int) returns (o: int)
      ensures o == NextOrderIn(packages, queue)
      ensures o >= 0 && forall i :: 0 <= i < |packages| && packages[i].scope == queue ==> packages[i].order < o
      ensures o == 0 || exists i :: 0 <= i < |packages| && packages[i].scope == queue && packages[i].order == o - 1
    {
      o := NextFree(Orders(packages, queue));
      NextOrderInSpec(packages, queue);
    }

    /** addLink: insert a queued link at the next free order of its package. */
    method AddLink(url: string, name: string, plugin: string, package: int) returns (id: int)
      requires Valid()
      modifies this
      ensures Valid()
      ensures id == old(lastLinkId) + 1
      ensures links == AddRow(old(links), id, package, LinkData(url, name, Queued, plugin))
      ensures packages == old(packages) && lastPackageId == old(lastPackageId)
    {
      var order := NextFileOrder(package);
      id := lastLinkId + 1;
      AddRowSpec(links, id, package, LinkData(url, name, Queued, plugin));
      links := links + [Row(id, package, order, LinkData(url, name, Queued, plugin))];
      lastLinkId := id;
    }

    /** addPackage: insert a package at the next free order of its queue flag. */
    method AddPackage(name: string, folder: string, queue: int) returns (id: int)
      requires Valid()
      modifies this
      ensures Valid()
      ensures id == old(lastPackageId) + 1
      ensures packages == AddRow(old(packages), id, queue, PackageData(name, folder))
      ensures links == old(links) && lastLinkId == old(lastLinkId)
    {
      var order := NextPackageOrder(queue);
      id := lastPackageId + 1;
      AddRowSpec(packages, id, queue, PackageData(name, folder));
      packages := packages + [Row(id, queue, order, PackageData(name, folder))];
      lastPackageId := id;
    }

    /**
     * deletePackage: delete the package's links and the package, then close
     * the gap in its queue flag. Without the package the links are deleted
     * all the same and reading its order raises.
     */
    method DeletePackage(id: int)
      requires Valid()
      modifies this`links, this`packages
      ensures Valid()
      ensures links == RemoveScope(old(links), id)
      ensures packages == DeleteRow(old(packages), id)
      ensures lastLinkId == old(lastLinkId) && lastPackageId == old(lastPackageId)
    {
      var r := RemoveScope(links, id);
      RemoveScopeIdsIncreasing(links, id);
      forall t | 0 <= t < |r|
        ensures r[t].id <= lastLinkId
      {
        RemoveScopeMembers(links, id, r[t]);
      }
      links := r;
      DeleteRowDense(packages, id);
      DeleteRowSpec(packages, id);
      packages := DeleteRow(packages, id);
    }

    /** deleteLink: delete the link and close the gap in its package. */
    method DeleteLink(id: int)
      requires Valid()
      modifies this`links
      ensures Valid()
      ensures links == DeleteRow(old(links), id)
    {
      DeleteRowDense(links, id);
      DeleteRowSpec(links, id);
      links := DeleteRow(links, id);
    }

    /** updateLink: write the object's url, name, status and package back to its row. */
    method UpdateLink(f: PyFile)
      requires Valid()
      modifies this`links
      ensures Valid()
      ensures links == UpdateLinkRow(old(links), f.id, f.url, f.name, f.status, f.packageid)
    {
      var r := UpdateLinkRow(links, f.id, f.url, f.name, f.status, f.packageid);
      SameIds(links, r, lastLinkId);
      links := r;
    }

    /** updatePackage: write the object's name, folder and queue flag back to its row. */
    method UpdatePackage(p: PyPackage)
      requires Valid()
      modifies this`packages
      ensures Valid()
      ensures packages == UpdatePackageRow(old(packages), p.id, p.name, p.folder, p.queue)
    {
      var r := UpdatePackageRow(packages, p.id, p.name, p.folder, p.queue);
      SameIds(packages, r, lastPackageId);
      packages := r;
    }

    /**
     * reorderPackage as written: -1 stands for the next free order; unless
     * noMove, the two shifts run with their `packageorder > 0` guard; then
     * the package's own order is set.
     */
    method ReorderPackage(p: PyPackage, position: int, noMove: bool)
      requires Valid()
      modifies this`packages
      ensures Valid()
      ensures packages == ReorderPackageRows(old(packages), p.Snapshot(), position, noMove)
    {
      var target := position;
      if position == -1 {
        target := NextPackageOrder(p.queue);
      }
      var r := packages;
      if !noMove {
        r := Shift(r, p.queue, Max(p.order, 0) + 1, -1);
        r := Shift(r, p.queue, Max(target, 1), 1);
      }
      r := SetOrder(r, p.id, target);
      SameIds(packages, r, lastPackageId);
      packages := r;
    }

    /**
     * reorderLink: close the gap above the file's order, open the slot at
     * `position`, set the file's order there, then sync the object.
     */
    method ReorderLink(f: PyFile, position: int)
      requires Valid() && f.m.db == this
      modifies this`links, f`order
      ensures Valid()
      ensures f.order == position
      ensures links == UpdateLinkRow(MoveRow(old(links), f.id, f.packageid, old(f.order), position),
                                     f.id, f.url, f.name, f.status, f.packageid)
      ensures Find(old(links), f.id).Some? && old(links)[Find(old(links), f.id).value] == old(f.Image()) ==>
        links == MoveRow(old(links), f.id, f.packageid, old(f.order), position)
    {
      ghost var rows, image := links, f.Image();
      var r := Shift(links, f.packageid, f.order + 1, -1);
      r := Shift(r, f.packageid, position, 1);
      r := SetOrder(r, f.id, position);
      SameIds(links, r, lastLinkId);
      links := r;
      f.order := position;
      f.Sync();
      if Find(rows, f.id).Some? && rows[Find(rows, f.id).value] == image {
        // the object mirrored its row, so the sync writes back what the move left there
        var i := Find(rows, f.id).value;
        MoveRowRows(rows, i, position);
        UpdateLinkRowUnchanged(MoveRow(rows, f.id, f.packageid, image.order, position), i);
      }
    }

    /** clearPackageOrder: the package's order becomes -1 and the gap in its queue flag closes. */
    method ClearPackageOrder(p: PyPackage)
      requires Valid()
      modifies this`packages
      ensures Valid()
      ensures packages == ClearPackageOrderRows(old(packages), p.Snapshot())
    {
      var r := SetOrder(packages, p.id, -1);
      r := ShiftOthers(r, p.queue, p.order + 1, -1, p.id);
      SameIds(packages, r, lastPackageId);
      packages := r;
    }

    /** restartFile: the link's status becomes "queued". */
    method RestartFile(id: int)
      requires Valid()
      modifies this`links
      ensures Valid()
      ensures links == RestartLinkRow(old(links), id)
    {
      var r := RestartLinkRow(links, id);
      SameIds(links, r, lastLinkId);
      links := r;
    }

    /** restartPackage: the status of every link of the package becomes "queued". */
    method RestartPackage(id: int)
      requires Valid()
      modifies this`links
      ensures Valid()
      ensures links == RestartScopeRows(old(links), id)
    {
      var r := RestartScopeRows(links, id);
      SameIds(links, r, lastLinkId);
      links := r;
    }

    /**
     * getJob: at most five ids of workable links in the queue whose plugin is
     * not occupied, each once, in (packageorder, linkorder) order.
     */
    method GetJob(occ: seq<string>) returns (ids: seq<int>)
      requires Valid()
      ensures ids == JobQuery(links, packages, occ)
      ensures |ids| <= JobLimit
      ensures forall k :: 0 <= k < |ids| ==>
        exists i :: 0 <= i < |links| && links[i].id == ids[k] && Eligible(packages, occ, links[i])
      ensures forall a, b :: 0 <= a < b < |ids| ==> ids[a] != ids[b]
    {
      ids := JobQuery(links, packages, occ);
      JobQueryEligible(links, packages, occ);
      JobQueryDistinct(links, packages, occ);
    }
  }

  // ---------------------------------------------------------------------------

  /** A link as an object; constructing one registers it in the handler's file cache. */
  class PyFile {
    const m: FileHandler
    const id: int
    var url: string
    var name: string
    var status: int
    var pluginname: string
    var packageid: int
    var order: int

    constructor (m: FileHandler, id: int, url: string, name: string, status: int, pluginname: string, packageid: int, order: int)
      modifies m`cache
      ensures this.m == m && this.id == id
      ensures this.url == url && this.name == name && this.status == status
      ensures this.pluginname == pluginname && this.packageid == packageid && this.order == order
      ensures m.cache == old(m.cache)[id := this]
    {
      this.m := m;
      this.id := id;
      this.url := url;
      this.name := name;
      this.status := status;
      this.pluginname := pluginname;
      this.packageid := packageid;
      this.order := order;
      new;
      m.cache := m.cache[id := this];
    }

    /** The row this object mirrors. */
    function Image(): LinkRow
      reads this
    {
      Row(id, packageid, order, LinkData(url, name, status, pluginname))
    }

    /** package(): the package the file belongs to, from the cache or loaded. */
    method Package() returns (p: PyPackage?)
      requires m.Valid()
      modifies m`packageCache
      ensures m.Valid()
      ensures packageid in old(m.packageCache) ==> p == old(m.packageCache)[packageid] && m.packageCache == old(m.packageCache)
      ensures packageid !in old(m.packageCache) ==> m.Loaded(old(m.packageCache), packageid, p)
    {
      p := m.GetPackage(packageid);
    }

    /** setStatus: an unknown name raises and nothing changes; a known one sets its code and syncs. */
    method SetStatus(s: string) returns (ok: bool)
      requires m.db.Valid()
      modifies this`status, m.db`links
      ensures m.db.Valid()
      ensures ok == (s in Names)
      ensures ok ==> (status == Code(s).value
                      && m.db.links == UpdateLinkRow(old(m.db.links), id, url, name, status, packageid))
      ensures !ok ==> status == old(status) && m.db.links == old(m.db.links)
    {
      var c := Code(s);
      if c.None? {
        return false;
      }
      status := c.value;
      Sync();
      ok := true;
    }

    /** hasStatus: whether the status is the code of the named one; an unknown name raises. */
    function HasStatus(s: string): (r: Option<bool>)
      reads this
      ensures r.Some? <==> s in Names
      ensures r.Some? ==> (r.value <==> 0 <= status < |Names| && Names[status] == s)
    {
      match Code(s)
      case None => None
      case Some(c) => Some(c == status)
    }

    /** sync: the handler's updateLink, which writes the object to its row. */
    method Sync()
      requires m.db.Valid()
      modifies m.db`links
      ensures m.db.Valid()
      ensures m.db.links == UpdateLinkRow(old(m.db.links), id, url, name, status, packageid)
    {
      m.UpdateLink(this);
    }

    /** release: sync, then leave the file cache. */
    method Release()
      requires m.db.Valid()
      modifies m`cache, m.db`links
      ensures m.db.Valid()
      ensures m.db.links == UpdateLinkRow(old(m.db.links), id, url, name, status, packageid)
      ensures m.cache == old(m.cache) - {id}
    {
      Sync();
      m.ReleaseLink(id);
    }

    /**
     * finishIfDone: while a thread still processes the file nothing happens;
     * otherwise it is marked finished, written back and released.
     */
    method FinishIfDone(processing: set<int>) returns (done: bool)
      requires m.db.Valid()
      modifies this`status, m`cache, m.db`links
      ensures m.db.Valid()
      ensures done == (id !in processing)
      ensures done ==> (status == Finished && m.cache == old(m.cache) - {id}
                        && m.db.links == UpdateLinkRow(old(m.db.links), id, url, name, Finished, packageid))
      ensures !done ==> status == old(status) && m.cache == old(m.cache) && m.db.links == old(m.db.links)
    {
      if id in processing {
        return false;
      }
      KnownCodes();
      var ok := SetStatus("finished");
      Release();
      UpdateLinkRowTwice(old(m.db.links), id, url, name, Finished, packageid);
      done := true;
    }
  }

  /** A package as an object; constructing one registers it in the handler's package cache. */
  class PyPackage {
    const m: FileHandler
    const id: int
    var name: string
    var folder: string
    var queue: int
    var order: int

    constructor (m: FileHandler, id: int, name: string, folder: string, queue: int, order: int)
      modifies m`packageCache
      ensures this.m == m && this.id == id
      ensures this.name == name && this.folder == folder && this.queue == queue && this.order == order
      ensures m.packageCache == old(m.packageCache)[id := this]
    {
      this.m := m;
      this.id := id;
      this.name := name;
      this.folder := folder;
      this.queue := queue;
      this.order := order;
      new;
      m.packageCache := m.packageCache[id := this];
    }

    /** The row this object mirrors. */
    function Snapshot(): PackageRow
      reads this
    {
      Row(id, queue, order, PackageData(name, folder))
    }
  }

  // ---------------------------------------------------------------------------

  /** FileHandler: the entity caches, the job batch cache and the backend. */
  class FileHandler {
    const db: Backend
    var cache: map<int, PyFile>
    var packageCache: map<int, PyPackage>
    var jobCache: Cache
    var filecount: int
    var unchangedFlag: bool

    /** Every cached object is registered under its own id and belongs to this handler. */
    ghost predicate Valid()
      reads this, db
    {
      && db.Valid()
      && (forall k :: k in cache ==> cache[k].id == k && cache[k].m == this)
      && (forall k :: k in packageCache ==> packageCache[k].id == k && packageCache[k].m == this)
    }

    constructor ()
      ensures Valid() && fresh(db) && db.links == [] && db.packages == []
      ensures cache == map[] && packageCache == map[] && jobCache == map[]
      ensures filecount == -1 && !unchangedFlag
    {
      db := new Backend();
      cache := map[];
      packageCache := map[];
      jobCache := map[];
      filecount := -1;
      unchangedFlag := false;
    }

    /**
     * What a lookup of `id` that missed the cache `before` did: no row leaves
     * the cache alone and yields nothing; a row yields a new object that
     * mirrors it, now in the cache.
     */
    ghost predicate Loaded(before: map<int, PyPackage>, id: int, p: PyPackage?)
      reads this, db, if p == null then {} else {p}
    {
      match Find(db.packages, id)
      case None => p == null && packageCache == before
      case Some(i) => p != null && p.Snapshot() == db.packages[i] && p.m == this && packageCache == before[id := p]
    }

    /** The same for files. */
    ghost predicate LoadedFile(before: map<int, PyFile>, id: int, f: PyFile?)
      reads this, db, if f == null then {} else {f}
    {
      match Find(db.links, id)
      case None => f == null && cache == before
      case Some(i) => f != null && f.Image() == db.links[i] && f.m == this && cache == before[id := f]
    }

    /** What getFile(id) would see: the cached object's values, or the row. */
    ghost function FileImage(id: int): Option<LinkRow>
      reads this, db, cache.Values
    {
      if id in cache then Some(cache[id].Image())
      else match Find(db.links, id)
        case None => None
        case Some(i) => Some(db.links[i])
    }

    /** Whether getPackage(id) finds a package. */
    ghost predicate PackageKnown(id: int)
      reads this, db
    {
      id in packageCache || Find(db.packages, id).Some?
    }

    /** The cached files of a package. */
    ghost function CachedOf(id: int): set<int>
      reads this, cache.Values
    {
      set k | k in cache && cache[k].packageid == id
    }

    /** The `change` decorator: every decorated call invalidates the counters and the job batches. */
    method Change()
      modifies this`jobCache, this`filecount, this`unchangedFlag
      ensures !unchangedFlag && filecount == -1 && jobCache == map[]
    {
      unchangedFlag := false;
      filecount := -1;
      jobCache := map[];
    }

    /** releaseLink: drop the file from the cache. */
    method ReleaseLink(id: int)
      modifies this`cache
      ensures cache == old(cache) - {id}
    {
      cache := cache - {id};
    }

    /** releasePackage: drop the package from the cache. */
    method ReleasePackage(id: int)
      modifies this`packageCache
      ensures packageCache == old(packageCache) - {id}
    {
      packageCache := packageCache - {id};
    }

    /** updateLink: the backend writes the object to its row. */
    method UpdateLink(f: PyFile)
      requires db.Valid()
      modifies db`links
      ensures db.Valid()
      ensures db.links == UpdateLinkRow(old(db.links), f.id, f.url, f.name, f.status, f.packageid)
    {
      db.UpdateLink(f);
    }

    /** The backend's getFile: select the row and construct (and so register) a PyFile for it. */
    method LoadFile(id: int) returns (f: PyFile?)
      requires Valid()
      modifies this`cache
      ensures Valid() && LoadedFile(old(cache), id, f)
      ensures f != null ==> fresh(f)
    {
      var r := Find(db.links, id);
      if r.None? {
        return null;
      }
      var row := db.links[r.value];
      f := new PyFile(this, id, row.data.url, row.data.name, row.data.status, row.data.plugin, row.scope, row.order);
    }

    /** The backend's getPackage: select the row and construct (and so register) a PyPackage for it. */
    method LoadPackage(id: int) returns (p: PyPackage?)
      requires Valid()
      modifies this`packageCache
      ensures Valid() && Loaded(old(packageCache), id, p)
      ensures p != null ==> fresh(p)
    {
      var r := Find(db.packages, id);
      if r.None? {
        return null;
      }
      var row := db.packages[r.value];
      p := new PyPackage(this, id, row.data.name, row.data.folder, row.scope, row.order);
    }

    /** getFile: the cached object, or a freshly loaded one. */
    method GetFile(id: int) returns (f: PyFile?)
      requires Valid()
      modifies this`cache
      ensures Valid()
      ensures id in old(cache) ==> f == old(cache)[id] && cache == old(cache)
      ensures id !in old(cache) ==> LoadedFile(old(cache), id, f) && (f != null ==> fresh(f))
    {
      if id in cache {
        return cache[id];
      }
      f := LoadFile(id);
    }

    /** getPackage: the cached object, or a freshly loaded one. */
    method GetPackage(id: int) returns (p: PyPackage?)
      requires Valid()
      modifies this`packageCache
      ensures Valid()
      ensures id in old(packageCache) ==> p == old(packageCache)[id] && packageCache == old(packageCache)
      ensures id !in old(packageCache) ==> Loaded(old(packageCache), id, p) && (p != null ==> fresh(p))
    {
      if id in packageCache {
        return packageCache[id];
      }
      p := LoadPackage(id);
    }

    /**
     * getJob: hand out the next job for the occupied plugins `occ` from its
     * cached batch, running the backend query when the batch is empty or
     * missing; the batches and what is handed out follow `Dispatch`. A
     * popped "empty" marker yields no file: in the first-query branch it
     * reaches getFile, whose lookup of "empty" finds no row.
     */
    method GetJob(occ: seq<string>) returns (f: PyFile?)
      requires Valid()
      modifies this`jobCache, this`cache
      ensures Valid()
      ensures var st := Dispatch(old(jobCache), occ, JobQuery(db.links, db.packages, occ));
        && jobCache == st.cache
        && (st.handed.None? ==> f == null && cache == old(cache))
        && (st.handed.Some? && st.handed.value in old(cache) ==> f == old(cache)[st.handed.value] && cache == old(cache))
        && (st.handed.Some? && st.handed.value !in old(cache) ==> LoadedFile(old(cache), st.handed.value, f))
    {
      var handed := NextJob(occ);
      if handed.None? {
        f := null;
      } else {
        f := GetFile(handed.value);
      }
    }

    /**
     * The batch half of getJob: pop the next entry of the batch for `occ`,
     * querying the backend first when the batch is empty or missing. A
     * popped "empty" marker hands out no id.
     */
    method NextJob(occ: seq<string>) returns (handed: Option<int>)
      requires Valid()
      modifies this`jobCache
      ensures var st := Dispatch(old(jobCache), occ, JobQuery(db.links, db.packages, occ));
        jobCache == st.cache && handed == st.handed
    {
      ghost var q := JobQuery(db.links, db.packages, occ);
      ghost var st := Dispatch(jobCache, occ, q);
      var e: Entry;
      if occ in jobCache {
        if jobCache[occ] != [] {
          var l := jobCache[occ];
          e := l[|l| - 1];
          jobCache := jobCache[occ := l[..|l| - 1]];
        } else {
          var jobs := db.GetJob(occ);
          var rev := Stack(jobs);
          if jobs == [] {
            assert jobCache[occ] + [EmptyMark] == [EmptyMark];
            jobCache := jobCache[occ := jobCache[occ] + [EmptyMark]];
            return None;
          }
          var l := jobCache[occ] + rev;
          assert l == rev;
          e := l[|l| - 1];
          jobCache := jobCache[occ := l[..|l| - 1]];
        }
      } else {
        // the new batch list is built, then stored as the only batch
        var jobs := db.GetJob(occ);
        var l := Stack(jobs);
        if jobs == [] {
          l := l + [EmptyMark];
        }
        e := l[|l| - 1];
        jobCache := map[occ := l[..|l| - 1]];
      }
      handed := Handed(e);
    }

    /**
     * deleteLink (decorated with change): look the file and its package up,
     * which loads and registers them; if either is missing the call raises
     * before anything is deleted. Otherwise the backend's deleteLink reads
     * the row through its own getFile, which constructs (and so registers) a
     * fresh object for it, deletes the row and closes the gap in the package;
     * that object stays in the cache. When only a stale cached object was
     * found, the backend finds no row, raises, and nothing is deleted.
     */
    method DeleteLink(id: int) returns (ok: bool)
      requires Valid()
      modifies this`cache, this`packageCache, this`jobCache, this`filecount, this`unchangedFlag, db`links
      ensures Valid()
      ensures !unchangedFlag && filecount == -1 && jobCache == map[]
      ensures ok == old(FileImage(id).Some? && PackageKnown(FileImage(id).value.scope))
      ensures ok ==> db.links == DeleteRow(old(db.links), id) && id in cache
      ensures ok && old(Find(db.links, id)).Some? ==>
        fresh(cache[id]) && cache[id].Image() == old(db.links[Find(db.links, id).value])
      ensures ok && old(Find(db.links, id)).None? ==> id in old(cache) && cache[id] == old(cache)[id]
      ensures !ok ==> db.links == old(db.links)
      ensures !ok && id in old(cache) ==> id in cache && cache[id] == old(cache)[id]
      ensures forall k :: k in old(cache) && k != id ==> k in cache && cache[k] == old(cache)[k]
      ensures forall k :: k in cache ==> k in old(cache) || k == id
      ensures forall k :: k in old(packageCache) ==> k in packageCache && packageCache[k] == old(packageCache)[k]
      ensures forall k :: k in packageCache ==> k in old(packageCache) || (old(FileImage(id)).Some? && k == old(FileImage(id)).value.scope)
    {
      Change();
      var f := GetFile(id);
      if f == null {
        return false;
      }
      assert f.packageid == old(FileImage(id)).value.scope;
      var p := f.Package();
      if p == null {
        return false;
      }
      RemoveLink(id);
      ok := true;
    }

    /**
     * The backend's deleteLink as the handler sees it: the backend's own
     * getFile constructs (and so registers) a fresh object for the row, then
     * the row is deleted and the package's gap closes.
     */
    method RemoveLink(id: int)
      requires Valid()
      modifies this`cache, db`links
      ensures Valid()
      ensures db.links == DeleteRow(old(db.links), id)
      ensures old(Find(db.links, id)).Some? ==>
        && id in cache && cache == old(cache)[id := cache[id]]
        && fresh(cache[id]) && cache[id].Image() == old(db.links[Find(db.links, id).value])
      ensures old(Find(db.links, id)).None? ==> cache == old(cache)
    {
      var g := LoadFile(id);
      db.DeleteLink(id);
    }

    /**
     * deletePackage (decorated with change): look the package up (a missing
     * one raises), drop it from the cache, write back and release every
     * cached file of it, then run the backend's deletePackage. That reads the
     * package through the backend's own getPackage, which constructs (and so
     * registers) a fresh object for the row, before the rows are deleted: the
     * package cache ends up holding an object for the deleted package.
     */
    method DeletePackage(id: int) returns (ok: bool)
      requires Valid()
      modifies this`cache, this`packageCache, this`jobCache, this`filecount, this`unchangedFlag, db`links, db`packages
      ensures Valid()
      ensures !unchangedFlag && filecount == -1 && jobCache == map[]
      ensures ok == old(PackageKnown(id))
      ensures ok ==> && db.packages == DeleteRow(old(db.packages), id)
                     && (forall x :: x in db.links <==> x in old(db.links) && x.scope != id && x.id !in old(CachedOf(id)))
                     && cache == old(cache) - old(CachedOf(id))
                     && (old(Find(db.packages, id)).Some? ==>
                           && id in packageCache && packageCache == old(packageCache)[id := packageCache[id]]
                           && fresh(packageCache[id])
                           && packageCache[id].Snapshot() == old(db.packages[Find(db.packages, id).value]))
                     && (old(Find(db.packages, id)).None? ==> packageCache == old(packageCache) - {id})
      ensures !ok ==> db.links == old(db.links) && db.packages == old(db.packages) && cache == old(cache)
      ensures !ok ==> packageCache == old(packageCache)
    {
      Change();
      var p := GetPackage(id);
      if p == null {
        return false;
      }
      if id in packageCache {
        packageCache := packageCache - {id};
      }
      ReleaseAndRemove(id);
      ok := true;
    }

    /**
     * The rest of deletePackage once the package has left the cache: write
     * back and release its cached files, then run the backend's
     * deletePackage.
     */
    method ReleaseAndRemove(id: int)
      requires Valid() && id !in packageCache
      modifies this`cache, this`packageCache, db`links, db`packages
      ensures Valid()
      ensures db.packages == DeleteRow(old(db.packages), id)
      ensures forall x :: x in db.links <==> x in old(db.links) && x.scope != id && x.id !in old(CachedOf(id))
      ensures cache == old(cache) - old(CachedOf(id))
      ensures old(Find(db.packages, id)).Some? ==>
        && id in packageCache && packageCache == old(packageCache)[id := packageCache[id]]
        && fresh(packageCache[id]) && packageCache[id].Snapshot() == old(db.packages[Find(db.packages, id).value])
      ensures old(Find(db.packages, id)).None? ==> packageCache == old(packageCache)
    {
      ghost var before := db.links;
      ghost var released := CachedOf(id);
      ReleaseFilesOf(id);
      ghost var mid := db.links;
      ReleasedThenRemoved(before, mid, id, released);
      RemovePackage(id);
    }

    /**
     * The backend's deletePackage as the handler sees it: the backend's own
     * getPackage constructs (and so registers) a fresh object for the row,
     * then the links and the package are deleted and the queue's gap closes.
     */
    method RemovePackage(id: int)
      requires Valid()
      modifies this`packageCache, db`links, db`packages
      ensures Valid()
      ensures db.links == RemoveScope(old(db.links), id) && db.packages == DeleteRow(old(db.packages), id)
      ensures old(Find(db.packages, id)).Some? ==>
        && id in packageCache && packageCache == old(packageCache)[id := packageCache[id]]
        && fresh(packageCache[id]) && packageCache[id].Snapshot() == old(db.packages[Find(db.packages, id).value])
      ensures old(Find(db.packages, id)).None? ==> packageCache == old(packageCache)
    {
      var q := LoadPackage(id);
      db.DeletePackage(id);
    }

    /**
     * The loop of deletePackage over the cached files: each one of the
     * package is written back with that package id and released.
     */
    method ReleaseFilesOf(id: int)
      requires Valid()
      modifies this`cache, db`links
      ensures Valid()
      ensures cache == old(cache) - old(CachedOf(id))
      ensures |db.links| == |old(db.links)|
      ensures forall i :: 0 <= i < |old(db.links)| ==> db.links[i].id == old(db.links)[i].id
      ensures forall i :: 0 <= i < |old(db.links)| ==>
        if old(db.links)[i].id in old(CachedOf(id)) then db.links[i].scope == id else db.links[i] == old(db.links)[i]
    {
      var snapshot := cache;
      ghost var before := db.links;
      ghost var released := CachedOf(id);
      var keys := snapshot.Keys;
      while keys != {}
        invariant keys <= snapshot.Keys
        invariant db.Valid()
        invariant cache == snapshot - (released - keys)
        invariant |db.links| == |before|
        invariant forall i :: 0 <= i < |before| ==> db.links[i].id == before[i].id
        invariant forall i :: 0 <= i < |before| ==>
          if before[i].id in released - keys then db.links[i].scope == id else db.links[i] == before[i]
        decreases keys
      {
        assert exists k :: k in keys by {
          if forall k :: k !in keys {
            assert false;
          }
        }
        var k :| k in keys;
        keys := keys - {k};
        var pf := snapshot[k];
        if pf.packageid == id {
          pf.Release();
        }
      }
    }

    /**
     * restartFile (not decorated with change): a cached file is queued again
     * under its url as name and written back; otherwise the backend queues
     * the row. Then the file and its package are looked up for the update
     * event, which loads and registers them; `ok` says whether both exist,
     * and without them the call raises after the restart.
     */
    method RestartFile(id: int) returns (ok: bool)
      requires Valid()
      modifies this`cache, this`packageCache, db`links, if id in cache then {cache[id]} else {}
      ensures Valid()
      ensures ok == old(FileImage(id).Some? && PackageKnown(FileImage(id).value.scope))
      ensures id in old(cache) ==>
        && cache == old(cache)
        && cache[id].status == Queued && cache[id].name == cache[id].url
        && cache[id].Image() == old(cache[id].Image()).(data := LinkData(old(cache[id].url), old(cache[id].url), Queued, old(cache[id].pluginname)))
        && db.links == UpdateLinkRow(old(db.links), id, old(cache[id].url), old(cache[id].url), Queued, old(cache[id].packageid))
      ensures id !in old(cache) ==>
        && db.links == RestartLinkRow(old(db.links), id)
        && LoadedFile(old(cache), id, if id in cache then cache[id] else null)
      ensures forall k :: k in old(packageCache) ==> k in packageCache && packageCache[k] == old(packageCache)[k]
    {
      if id in cache {
        var f := cache[id];
        f.status := Queued;
        f.name := f.url;
        f.Sync();
      } else {
        RestartLinkRowSpec(db.links, id);
        db.RestartFile(id);
      }
      var f := GetFile(id);
      if f == null {
        return false;
      }
      var p := f.Package();
      ok := p != null;
    }

    /**
     * The backend half of setPackageLocation: clear the package's order,
     * load it again, set its queue, write it back and give it the next free
     * order of that queue without moving the others.
     */
    method MoveToQueue(pack: PyPackage, queue: int)
      requires Valid() && Find(db.packages, pack.id).Some?
      requires pack.Snapshot() == db.packages[Find(db.packages, pack.id).value]
      modifies this`packageCache, db`packages
      ensures Valid() && packageCache - {pack.id} == old(packageCache) - {pack.id}
      ensures db.packages == SetLocationRows(old(db.packages), pack.id, queue)
    {
      ghost var rows := db.packages;
      ghost var i := Find(rows, pack.id).value;
      var id := pack.id;
      db.ClearPackageOrder(pack);
      ghost var cleared := db.packages;
      assert |cleared| == |rows| && cleared[i].id == id by {
        SetLocationSteps(rows, i, queue);
      }
      FindAt(cleared, i);
      var p := LoadPackage(id);
      assert p.Snapshot() == cleared[i];
      p.queue := queue;
      assert p.Snapshot() == Row(id, queue, cleared[i].order, cleared[i].data);
      db.UpdatePackage(p);
      db.ReorderPackage(p, -1, true);
      assert db.packages == SetLocationRows(rows, id, queue) by {
        SetLocationSteps(rows, i, queue);
      }
    }

    /**
     * setPackageLocation (decorated with change): read the package (a
     * missing one raises), clear its order, read it again, set its queue flag,
     * write it back and append it to the new queue without moving others;
     * then replace its cached object by a freshly loaded one.
     */
    method SetPackageLocation(id: int, queue: int) returns (ok: bool)
      requires Valid()
      modifies this`packageCache, this`jobCache, this`filecount, this`unchangedFlag, db`packages
      ensures Valid()
      ensures !unchangedFlag && filecount == -1 && jobCache == map[]
      ensures ok == old(Find(db.packages, id)).Some?
      ensures ok ==> && db.packages == SetLocationRows(old(db.packages), id, queue)
                     && Find(db.packages, id) == old(Find(db.packages, id))
                     && id in packageCache && fresh(packageCache[id])
                     && packageCache[id].Snapshot() == db.packages[Find(db.packages, id).value]
                     && (forall k :: k in packageCache && k != id ==> k in old(packageCache) && packageCache[k] == old(packageCache)[k])
                     && (forall k :: k in old(packageCache) && k != id ==> k in packageCache)
      ensures !ok ==> db.packages == old(db.packages) && packageCache == old(packageCache)
    {
      Change();
      var pack := LoadPackage(id);
      if pack == null {
        return false;
      }
      ghost var rows := db.packages;
      ghost var i := Find(rows, id).value;
      MoveToQueue(pack, queue);
      assert Find(db.packages, id) == Some(i) by {
        SetLocationRowsSpec(rows, i, queue);
        FindAt(db.packages, i);
      }
      ReleasePackage(id);
      pack := GetPackage(id);
      ok := true;
    }
  }
}
