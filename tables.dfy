/**
 * The two tables of the file database, `links` and `packages`, as sequences
 * of rows in rowid order, and the SQL statements the backend runs on them as
 * functions from the old table to the new one.
 */
module Tables {
  import opened Positions

  datatype Option<T> = None | Some(value: T)

  /**
   * One row of either table. `scope` is the column that groups rows for
   * ordering: the `package` column of a link, the `queue` flag of a package.
   * `order` is `linkorder` or `packageorder`.
   */
  datatype Row<D> = Row(id: int, scope: int, order: int, data: D)

  /** The remaining columns of `links` that the core reads or writes. */
  datatype LinkData = LinkData(url: string, name: string, status: int, plugin: string)

  /** The remaining columns of `packages` that the core reads or writes. */
  datatype PackageData = PackageData(name: string, folder: string)

  type LinkRow = Row<LinkData>
  type PackageRow = Row<PackageData>

  /** The `status` default of the `links` table and the status a restart sets: "queued". */
  const Queued := 3

  /** `packages.queue`: 0 is the collector, 1 the queue. */
  const Collector := 0
  const Queue := 1

  /** AUTOINCREMENT ids grow along the table, so each id names at most one row. */
  ghost predicate IdsIncreasing<D>(rows: seq<Row<D>>)
  {
    forall i, j :: 0 <= i < j < |rows| ==> rows[i].id < rows[j].id
  }

  /** `SELECT ... WHERE id = ?`: the position of a row with that id, if any. */
  function Find<D>(rows: seq<Row<D>>, id: int): (r: Option<nat>)
    ensures r.Some? ==> r.value < |rows| && rows[r.value].id == id
    ensures r.None? ==> forall i :: 0 <= i < |rows| ==> rows[i].id != id
  {
    if rows == [] then None
    else if rows[|rows| - 1].id == id then Some(|rows| - 1)
    else Find(rows[..|rows| - 1], id)
  }

  /** `SELECT order FROM t WHERE scope = ?`: the orders of one scope, in table order. */
  function Orders<D>(rows: seq<Row<D>>, scope: int): (os: seq<int>)
    ensures |os| <= |rows|
  {
    if rows == [] then []
    else
      var last := rows[|rows| - 1];
      Orders(rows[..|rows| - 1], scope) + (if last.scope == scope then [last.order] else [])
  }

  /** Number of rows in a scope. */
  function Count<D>(rows: seq<Row<D>>, scope: int): nat
  {
    |Orders(rows, scope)|
  }

  /** The rows of a scope have the positions 0 .. Count - 1, each once. */
  ghost predicate DenseScope<D>(rows: seq<Row<D>>, scope: int)
  {
    Dense(Orders(rows, scope))
  }

  /** `_nextFileOrder` / `_nextPackageOrder` as a value. */
  function NextOrderIn<D>(rows: seq<Row<D>>, scope: int): int
  {
    NextOrder(Orders(rows, scope))
  }

  // ---------------------------------------------------------------------------
  // Single SQL statements

  /** `UPDATE t SET order = order + delta WHERE order >= from AND scope = ?` */
  function Shift<D>(rows: seq<Row<D>>, scope: int, from: int, delta: int): (r: seq<Row<D>>)
    ensures |r| == |rows|
  {
    seq(|rows|, i requires 0 <= i < |rows| =>
      if rows[i].scope == scope then rows[i].(order := Bump(rows[i].order, from, delta)) else rows[i])
  }

  /** The same statement with the extra condition `AND id != keep`. */
  function ShiftOthers<D>(rows: seq<Row<D>>, scope: int, from: int, delta: int, keep: int): (r: seq<Row<D>>)
    ensures |r| == |rows|
  {
    seq(|rows|, i requires 0 <= i < |rows| =>
      if rows[i].scope == scope && rows[i].id != keep then rows[i].(order := Bump(rows[i].order, from, delta)) else rows[i])
  }

  /** `UPDATE t SET order = ? WHERE id = ?` */
  function SetOrder<D>(rows: seq<Row<D>>, id: int, k: int): (r: seq<Row<D>>)
    ensures |r| == |rows|
  {
    seq(|rows|, i requires 0 <= i < |rows| => if rows[i].id == id then rows[i].(order := k) else rows[i])
  }

  /** `DELETE FROM t WHERE id = ?`: exactly the rows with another id remain. */
  function RemoveId<D(==)>(rows: seq<Row<D>>, id: int): (r: seq<Row<D>>)
    ensures |r| <= |rows|
  {
    if rows == [] then []
    else
      var last := rows[|rows| - 1];
      RemoveId(rows[..|rows| - 1], id) + (if last.id == id then [] else [last])
  }

  /** `DELETE FROM links WHERE package = ?`: exactly the rows of other scopes remain. */
  function RemoveScope<D(==)>(rows: seq<Row<D>>, scope: int): (r: seq<Row<D>>)
    ensures |r| <= |rows|
  {
    if rows == [] then []
    else
      var last := rows[|rows| - 1];
      RemoveScope(rows[..|rows| - 1], scope) + (if last.scope == scope then [] else [last])
  }

  /** `UPDATE links SET url=?, name=?, status=?, package=? WHERE id=?` (updateLink). */
  function UpdateLinkRow(rows: seq<LinkRow>, id: int, url: string, name: string, status: int, package: int): (r: seq<LinkRow>)
    ensures |r| == |rows|
  {
    seq(|rows|, i requires 0 <= i < |rows| =>
      if rows[i].id == id
      then rows[i].(scope := package, data := rows[i].data.(url := url, name := name, status := status))
      else rows[i])
  }

  /** `UPDATE packages SET name=?, folder=?, queue=? WHERE id=?` (updatePackage). */
  function UpdatePackageRow(rows: seq<PackageRow>, id: int, name: string, folder: string, queue: int): (r: seq<PackageRow>)
    ensures |r| == |rows|
  {
    seq(|rows|, i requires 0 <= i < |rows| =>
      if rows[i].id == id then rows[i].(scope := queue, data := PackageData(name, folder)) else rows[i])
  }

  /** `UPDATE links SET status=3 WHERE id=?` (restartFile). */
  function RestartLinkRow(rows: seq<LinkRow>, id: int): (r: seq<LinkRow>)
    ensures |r| == |rows|
  {
    seq(|rows|, i requires 0 <= i < |rows| =>
      if rows[i].id == id then rows[i].(data := rows[i].data.(status := Queued)) else rows[i])
  }

  /** `UPDATE links SET status=3 WHERE package=?` (restartPackage). */
  function RestartScopeRows(rows: seq<LinkRow>, package: int): (r: seq<LinkRow>)
    ensures |r| == |rows|
  {
    seq(|rows|, i requires 0 <= i < |rows| =>
      if rows[i].scope == package then rows[i].(data := rows[i].data.(status := Queued)) else rows[i])
  }

  // ---------------------------------------------------------------------------
  // Backend operations, each the sequence of statements one queued call runs

  /** addLink / addPackage: the INSERT with the next free order of the scope. */
  function AddRow<D>(rows: seq<Row<D>>, id: int, scope: int, data: D): seq<Row<D>>
  {
    rows + [Row(id, scope, NextOrderIn(rows, scope), data)]
  }

  /**
   * deleteLink / the package half of deletePackage: look the row up, delete
   * it, then decrement the orders above it in its scope. Without a row the
   * lookup yields None, the update raises, and nothing has changed.
   */
  function DeleteRow<D(==)>(rows: seq<Row<D>>, id: int): seq<Row<D>>
  {
    match Find(rows, id)
    case None => rows
    case Some(i) => Shift(RemoveId(rows, id), rows[i].scope, rows[i].order + 1, -1)
  }

  /**
   * The three statements of reorderLink for a file `id` whose snapshot has
   * the given scope and order: close the gap above `from`, open the slot at
   * `to`, then set the file's own order.
   */
  function MoveRow<D>(rows: seq<Row<D>>, id: int, scope: int, from: int, to: int): seq<Row<D>>
  {
    SetOrder(Shift(Shift(rows, scope, from + 1, -1), scope, to, 1), id, to)
  }

  /**
   * reorderPackage as written: position -1 means the next free order of the
   * snapshot's queue; both shifts carry the extra `packageorder > 0` guard,
   * which for integers turns `> p.order` into `>= Max(p.order, 0) + 1` and
   * `>= position` into `>= Max(position, 1)`.
   */
  function ReorderPackageRows<D>(rows: seq<Row<D>>, p: Row<D>, position: int, noMove: bool): seq<Row<D>>
  {
    var target := if position == -1 then NextOrderIn(rows, p.scope) else position;
    var shifted := if noMove then rows
      else Shift(Shift(rows, p.scope, Max(p.order, 0) + 1, -1), p.scope, Max(target, 1), 1);
    SetOrder(shifted, p.id, target)
  }

  /**
   * reorderPackage as intended: the guard written `packageorder >= 0` (it
   * then only keeps a package whose order was cleared to -1 out of the
   * shifts), and -1 standing for the last position of the queue, which is
   * one below the next free order when the package itself moves out of its
   * own slot.
   */
  function ReorderPackageRowsIntended<D>(rows: seq<Row<D>>, p: Row<D>, position: int, noMove: bool): seq<Row<D>>
  {
    var target := if position != -1 then position
      else if noMove then NextOrderIn(rows, p.scope) else NextOrderIn(rows, p.scope) - 1;
    var shifted := if noMove then rows
      else Shift(Shift(rows, p.scope, Max(p.order + 1, 0), -1), p.scope, Max(target, 0), 1);
    SetOrder(shifted, p.id, target)
  }

  /** clearPackageOrder: the package's order becomes -1, the packages above it in its queue move down. */
  function ClearPackageOrderRows<D>(rows: seq<Row<D>>, p: Row<D>): seq<Row<D>>
  {
    ShiftOthers(SetOrder(rows, p.id, -1), p.scope, p.order + 1, -1, p.id)
  }

  /**
   * The backend calls of FileHandler.setPackageLocation: read the package,
   * clear its order, read it again, write it back with the new queue flag,
   * then place it at the next free order of that queue without moving others.
   */
  function SetLocationRows(rows: seq<PackageRow>, id: int, queue: int): seq<PackageRow>
  {
    match Find(rows, id)
    case None => rows
    case Some(i) =>
      var cleared := ClearPackageOrderRows(rows, rows[i]);
      var reread := cleared[i];
      var moved := UpdatePackageRow(cleared, id, reread.data.name, reread.data.folder, queue);
      ReorderPackageRows(moved, reread.(scope := queue), -1, true)
  }

  // ---------------------------------------------------------------------------
  // How the orders of a scope are read off a table

  lemma {:induction false} OrdersConcat<D>(a: seq<Row<D>>, b: seq<Row<D>>, scope: int)
    ensures Orders(a + b, scope) == Orders(a, scope) + Orders(b, scope)
  {
    if b == [] {
      assert a + b == a;
    } else {
      var b' := b[..|b| - 1];
      assert (a + b)[..|a + b| - 1] == a + b';
      OrdersConcat(a, b', scope);
    }
  }

  lemma {:induction false} OrdersSingle<D>(r: Row<D>, scope: int)
    ensures Orders([r], scope) == if r.scope == scope then [r.order] else []
  {
    assert [r][..0] == [];
  }

  /** Position i of the table splits each scope's orders in three. */
  lemma {:induction false} OrdersSplit<D>(rows: seq<Row<D>>, i: nat, scope: int)
    requires i < |rows|
    ensures Orders(rows, scope) == Orders(rows[..i], scope) + Orders([rows[i]], scope) + Orders(rows[i + 1..], scope)
  {
    assert rows == rows[..i] + [rows[i]] + rows[i + 1..];
    OrdersConcat(rows[..i] + [rows[i]], rows[i + 1..], scope);
    OrdersConcat(rows[..i], [rows[i]], scope);
  }

  lemma {:induction false} OrdersShift<D>(rows: seq<Row<D>>, scope: int, from: int, delta: int, s: int)
    ensures Orders(Shift(rows, scope, from, delta), s)
         == if s == scope then ShiftAll(Orders(rows, s), from, delta) else Orders(rows, s)
  {
    if rows != [] {
      var n := |rows|;
      var pre := rows[..n - 1];
      assert Shift(rows, scope, from, delta)[..n - 1] == Shift(pre, scope, from, delta);
      OrdersShift(pre, scope, from, delta, s);
      if s == scope {
        var last := rows[n - 1];
        var tail := if last.scope == s then [last.order] else [];
        assert ShiftAll(Orders(pre, s) + tail, from, delta) == ShiftAll(Orders(pre, s), from, delta) + ShiftAll(tail, from, delta);
      }
    }
  }

  lemma {:induction false} OrdersRemoveScope<D>(rows: seq<Row<D>>, scope: int, s: int)
    requires s != scope
    ensures Orders(RemoveScope(rows, scope), s) == Orders(rows, s)
  {
    if rows != [] {
      var n := |rows|;
      var last := rows[n - 1];
      OrdersRemoveScope(rows[..n - 1], scope, s);
      var kept := if last.scope == scope then [] else [last];
      OrdersConcat(RemoveScope(rows[..n - 1], scope), kept, s);
      if kept != [] {
        OrdersSingle(last, s);
      }
    }
  }

  /** Two tables with the same ids, scopes and orders row by row have the same orders in every scope. */
  lemma {:induction false} OrdersSameLayout<D>(a: seq<Row<D>>, b: seq<Row<D>>, s: int)
    requires |a| == |b|
    requires forall i :: 0 <= i < |a| ==> a[i].scope == b[i].scope && a[i].order == b[i].order
    ensures Orders(a, s) == Orders(b, s)
  {
    if a != [] {
      OrdersSameLayout(a[..|a| - 1], b[..|b| - 1], s);
    }
  }

  /** Every member of `Orders` is the order of some row of the scope, and back. */
  lemma {:induction false} OrdersMembers<D>(rows: seq<Row<D>>, scope: int, x: int)
    ensures x in Orders(rows, scope) <==> exists i :: 0 <= i < |rows| && rows[i].scope == scope && rows[i].order == x
  {
    if rows != [] {
      var n := |rows|;
      var pre := rows[..n - 1];
      OrdersMembers(pre, scope, x);
      if x in Orders(rows, scope) {
        if x in Orders(pre, scope) {
          var i :| 0 <= i < |pre| && pre[i].scope == scope && pre[i].order == x;
          assert rows[i] == pre[i];
        } else {
          assert rows[n - 1].scope == scope && rows[n - 1].order == x;
        }
      }
      if exists i :: 0 <= i < |rows| && rows[i].scope == scope && rows[i].order == x {
        var i :| 0 <= i < |rows| && rows[i].scope == scope && rows[i].order == x;
        if i < n - 1 {
          assert pre[i] == rows[i];
        }
      }
    }
  }

  /** Two tables with the same ids at the same positions answer every lookup alike. */
  lemma {:induction false} FindSameIds<D>(a: seq<Row<D>>, b: seq<Row<D>>, k: int)
    requires |a| == |b| && forall i :: 0 <= i < |a| ==> a[i].id == b[i].id
    ensures Find(a, k) == Find(b, k)
  {
    if a != [] {
      FindSameIds(a[..|a| - 1], b[..|b| - 1], k);
    }
  }

  /** Writing the same values to a link twice is writing them once. */
  lemma {:induction false} UpdateLinkRowTwice(rows: seq<LinkRow>, id: int, url: string, name: string, status: int, package: int)
    ensures UpdateLinkRow(UpdateLinkRow(rows, id, url, name, status, package), id, url, name, status, package)
         == UpdateLinkRow(rows, id, url, name, status, package)
  {
  }

  // ---------------------------------------------------------------------------
  // Statements that hit one row by id

  lemma {:induction false} SetOrderAt<D>(rows: seq<Row<D>>, i: nat, k: int)
    requires IdsIncreasing(rows) && i < |rows|
    ensures SetOrder(rows, rows[i].id, k) == rows[i := rows[i].(order := k)]
  {
  }

  lemma {:induction false} ShiftOthersAt<D>(rows: seq<Row<D>>, i: nat, scope: int, from: int, delta: int)
    requires IdsIncreasing(rows) && i < |rows|
    ensures ShiftOthers(rows, scope, from, delta, rows[i].id) == Shift(rows, scope, from, delta)[i := rows[i]]
  {
  }

  lemma {:induction false} UpdatePackageRowAt(rows: seq<PackageRow>, i: nat, name: string, folder: string, queue: int)
    requires IdsIncreasing(rows) && i < |rows|
    ensures UpdatePackageRow(rows, rows[i].id, name, folder, queue)
         == rows[i := rows[i].(scope := queue, data := PackageData(name, folder))]
  {
  }

  lemma {:induction false} RemoveIdAbsent<D>(rows: seq<Row<D>>, id: int)
    requires forall i :: 0 <= i < |rows| ==> rows[i].id != id
    ensures RemoveId(rows, id) == rows
  {
    if rows != [] {
      RemoveIdAbsent(rows[..|rows| - 1], id);
      assert rows == rows[..|rows| - 1] + [rows[|rows| - 1]];
    }
  }

  /** With unique ids, DELETE ... WHERE id = ? removes exactly the one row at position i. */
  lemma {:induction false} RemoveIdAt<D>(rows: seq<Row<D>>, i: nat)
    requires IdsIncreasing(rows) && i < |rows|
    ensures RemoveId(rows, rows[i].id) == rows[..i] + rows[i + 1..]
  {
    var n := |rows|;
    var id := rows[i].id;
    var pre, last := rows[..n - 1], rows[n - 1];
    if i == n - 1 {
      RemoveIdAbsent(pre, id);
      assert rows[i + 1..] == [];
    } else {
      RemoveIdAt(pre, i);
      RemoveIdKeepsLast(rows, i);
    }
  }

  lemma {:induction false} RemoveIdKeepsLast<D>(rows: seq<Row<D>>, i: nat)
    requires IdsIncreasing(rows) && i < |rows| - 1
    requires var pre := rows[..|rows| - 1]; RemoveId(pre, rows[i].id) == pre[..i] + pre[i + 1..]
    ensures RemoveId(rows, rows[i].id) == rows[..i] + rows[i + 1..]
  {
    var n := |rows|;
    var pre, last := rows[..n - 1], rows[n - 1];
    assert last.id != rows[i].id;
    assert rows[i + 1..] == pre[i + 1..] + [last];
  }

  /** DELETE ... WHERE package = ? keeps exactly the rows of other scopes. */
  lemma {:induction false} RemoveScopeMembers<D>(rows: seq<Row<D>>, scope: int, x: Row<D>)
    ensures x in RemoveScope(rows, scope) <==> x in rows && x.scope != scope
  {
    if rows != [] {
      var n := |rows|;
      RemoveScopeMembers(rows[..n - 1], scope, x);
      assert rows == rows[..n - 1] + [rows[n - 1]];
    }
  }

  lemma {:induction false} RemoveScopeIdsIncreasing<D>(rows: seq<Row<D>>, scope: int)
    requires IdsIncreasing(rows)
    ensures IdsIncreasing(RemoveScope(rows, scope))
  {
    if rows != [] {
      var n := |rows|;
      var pre := rows[..n - 1];
      RemoveScopeIdsIncreasing(pre, scope);
      var r := RemoveScope(pre, scope);
      forall t | 0 <= t < |r|
        ensures r[t].id < rows[n - 1].id
      {
        RemoveScopeMembers(pre, scope, r[t]);
        var u :| 0 <= u < |pre| && pre[u] == r[t];
      }
    }
  }
}
