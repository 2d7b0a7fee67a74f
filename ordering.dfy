/**
 * What the ordering engine's rewrites do to the tables: where the touched
 * row lands, what happens to its neighbours, and that dense positions stay
 * dense (or, for one guard of reorderPackage, do not).
 */
module Ordering {
  import opened Positions
  import opened Tables

  // ---------------------------------------------------------------------------
  // Facts shared by the operations

  /** Two tables whose rows agree on their scopes have scopes of the same size. */
  lemma {:induction false} CountSameScopes<D>(a: seq<Row<D>>, b: seq<Row<D>>, s: int)
    requires |a| == |b| && forall t :: 0 <= t < |a| ==> a[t].scope == b[t].scope
    ensures Count(a, s) == Count(b, s)
  {
    if a != [] {
      CountSameScopes(a[..|a| - 1], b[..|b| - 1], s);
    }
  }

  /** Replacing the row at position i changes each scope's orders only at that row. */
  lemma {:induction false} OrdersPointUpdate<D>(rows: seq<Row<D>>, i: nat, r: Row<D>, s: int)
    requires i < |rows|
    ensures Orders(rows[i := r], s) == Orders(rows[..i], s) + Orders([r], s) + Orders(rows[i + 1..], s)
  {
    var rows' := rows[i := r];
    OrdersSplit(rows', i, s);
    assert rows'[..i] == rows[..i] && rows'[i + 1..] == rows[i + 1..];
  }

  /** The row at table position i is entry Count(rows[..i]) of its scope's orders. */
  lemma {:induction false} OrdersIndex<D>(rows: seq<Row<D>>, i: nat)
    requires i < |rows|
    ensures var os, j := Orders(rows, rows[i].scope), Count(rows[..i], rows[i].scope);
      j < |os| && os[j] == rows[i].order
  {
    OrdersSplit(rows, i, rows[i].scope);
    OrdersSingle(rows[i], rows[i].scope);
  }

  /** A row of a dense scope has a position in 0 .. Count - 1. */
  lemma {:induction false} DenseOrderInRange<D>(rows: seq<Row<D>>, i: nat)
    requires i < |rows| && DenseScope(rows, rows[i].scope)
    ensures 0 <= rows[i].order < Count(rows, rows[i].scope)
  {
    OrdersIndex(rows, i);
  }

  /** Leaving out the row at position i removes its entry from its own scope's orders. */
  lemma {:induction false} OrdersWithoutOwn<D>(rows: seq<Row<D>>, i: nat)
    requires i < |rows|
    ensures var s := rows[i].scope;
      var os, j := Orders(rows, s), Count(rows[..i], s);
      j < |os| && Orders(rows[..i] + rows[i + 1..], s) == os[..j] + os[j + 1..]
  {
    var s := rows[i].scope;
    var pre, post := rows[..i], rows[i + 1..];
    var a, b := Orders(pre, s), Orders(post, s);
    OrdersSplit(rows, i, s);
    OrdersConcat(pre, post, s);
    OrdersSingle(rows[i], s);
    var os := a + [rows[i].order] + b;
    assert Orders(rows, s) == os;
    assert os[..|a|] == a;
    assert os[|a| + 1..] == b;
  }

  /** Leaving out the row at position i keeps the orders of every other scope. */
  lemma {:induction false} OrdersWithoutOther<D>(rows: seq<Row<D>>, i: nat, s: int)
    requires i < |rows| && rows[i].scope != s
    ensures Orders(rows[..i] + rows[i + 1..], s) == Orders(rows, s)
  {
    var pre, post := rows[..i], rows[i + 1..];
    OrdersSplit(rows, i, s);
    OrdersConcat(pre, post, s);
    OrdersSingle(rows[i], s);
    assert Orders(pre, s) + [] + Orders(post, s) == Orders(pre, s) + Orders(post, s);
  }

  /** Leaving out the row at position i removes its entry from its own scope only. */
  lemma {:induction false} OrdersWithout<D>(rows: seq<Row<D>>, i: nat, s: int)
    requires i < |rows|
    ensures var os, j := Orders(rows, s), Count(rows[..i], s);
      if rows[i].scope == s then j < |os| && Orders(rows[..i] + rows[i + 1..], s) == os[..j] + os[j + 1..]
      else Orders(rows[..i] + rows[i + 1..], s) == os
  {
    if rows[i].scope == s {
      OrdersWithoutOwn(rows, i);
    } else {
      OrdersWithoutOther(rows, i, s);
    }
  }

  /** Setting the order of the row at position i changes its own entry only. */
  lemma {:induction false} OrdersSetAt<D>(rows: seq<Row<D>>, i: nat, k: int, s: int)
    requires i < |rows|
    ensures var os, j := Orders(rows, s), Count(rows[..i], s);
      if rows[i].scope == s then j < |os| && Orders(rows[i := rows[i].(order := k)], s) == os[j := k]
      else Orders(rows[i := rows[i].(order := k)], s) == os
  {
    var w := rows[i].(order := k);
    OrdersPointUpdate(rows, i, w, s);
    OrdersSplit(rows, i, s);
    OrdersSingle(rows[i], s);
    OrdersSingle(w, s);
  }

  /** A shift leaves ids and scopes alone. */
  lemma {:induction false} ShiftKeepsIds<D>(rows: seq<Row<D>>, scope: int, from: int, delta: int)
    ensures var r := Shift(rows, scope, from, delta);
      forall t :: 0 <= t < |rows| ==> r[t].id == rows[t].id && r[t].scope == rows[t].scope
  {
  }

  /** Leaving out a row commutes with a shift. */
  lemma {:induction false} ShiftWithout<D>(rows: seq<Row<D>>, i: nat, scope: int, from: int, delta: int)
    requires i < |rows|
    ensures var sh := Shift(rows, scope, from, delta);
      sh[..i] + sh[i + 1..] == Shift(rows[..i] + rows[i + 1..], scope, from, delta)
  {
    var sh := Shift(rows, scope, from, delta);
    var rest := rows[..i] + rows[i + 1..];
    var x, y := sh[..i] + sh[i + 1..], Shift(rest, scope, from, delta);
    assert |x| == |y|;
    forall t | 0 <= t < |x|
      ensures x[t] == y[t]
    {
      var t' := if t < i then t else t + 1;
      assert x[t] == sh[t'];
      assert rest[t] == rows[t'];
    }
  }

  /** Two rows of a dense scope never share a position. */
  lemma {:induction false} DenseDistinct<D>(rows: seq<Row<D>>, s: int, a: nat, b: nat)
    requires DenseScope(rows, s) && a < b < |rows| && rows[a].scope == s && rows[b].scope == s
    ensures rows[a].order != rows[b].order
  {
    OrdersSplit(rows, a, s);
    OrdersSingle(rows[a], s);
    var pre, post := Orders(rows[..a], s), Orders(rows[a + 1..], s);
    OrdersMembers(rows[a + 1..], s, rows[b].order);
    assert rows[a + 1..][b - a - 1] == rows[b];
    var q :| 0 <= q < |post| && post[q] == rows[b].order;
    var os := Orders(rows, s);
    assert os[|pre|] == rows[a].order;
    assert os[|pre| + 1 + q] == rows[b].order;
  }

  /** With unique ids, the lookup of a row's id finds that row. */
  lemma {:induction false} FindAt<D>(rows: seq<Row<D>>, i: nat)
    requires IdsIncreasing(rows) && i < |rows|
    ensures Find(rows, rows[i].id) == Some(i)
  {
  }

  /** The contents of `_nextFileOrder`'s result: one past the largest order in scope, or 0. */
  lemma {:induction false} NextOrderInSpec<D>(rows: seq<Row<D>>, scope: int)
    ensures var n := NextOrderIn(rows, scope);
      && n >= 0
      && (forall i :: 0 <= i < |rows| && rows[i].scope == scope ==> rows[i].order < n)
      && (n == 0 || exists i :: 0 <= i < |rows| && rows[i].scope == scope && rows[i].order == n - 1)
  {
    var os := Orders(rows, scope);
    var m := MaxOrder(os);
    forall i | 0 <= i < |rows| && rows[i].scope == scope
      ensures rows[i].order <= m
    {
      OrdersMembers(rows, scope, rows[i].order);
    }
    if m != -1 {
      OrdersMembers(rows, scope, m);
    }
  }

  // ---------------------------------------------------------------------------
  // addLink / addPackage

  /**
   * The new row is appended with the next free order of its scope; every
   * scope that was dense stays dense, and on a dense scope the new order is
   * the scope's former size.
   */
  lemma {:induction false} AddRowSpec<D>(rows: seq<Row<D>>, id: int, scope: int, data: D)
    requires IdsIncreasing(rows) && forall i :: 0 <= i < |rows| ==> rows[i].id < id
    ensures var r := AddRow(rows, id, scope, data);
      && IdsIncreasing(r)
      && r[..|rows|] == rows
      && r[|rows|] == Row(id, scope, NextOrderIn(rows, scope), data)
      && (forall s :: s != scope ==> Orders(r, s) == Orders(rows, s))
      && Orders(r, scope) == Orders(rows, scope) + [NextOrderIn(rows, scope)]
      && (forall s :: DenseScope(rows, s) ==> DenseScope(r, s))
      && (DenseScope(rows, scope) ==> r[|rows|].order == Count(rows, scope))
  {
    var nr := Row(id, scope, NextOrderIn(rows, scope), data);
    var r := rows + [nr];
    forall s
      ensures Orders(r, s) == Orders(rows, s) + (if s == scope then [nr.order] else [])
    {
      OrdersConcat(rows, [nr], s);
      OrdersSingle(nr, s);
    }
    forall s | DenseScope(rows, s)
      ensures DenseScope(r, s)
    {
      if s == scope {
        var os := Orders(rows, s);
        DenseNextOrder(os);
        DenseInsert(os, |os|);
        assert os[..|os|] + [|os|] + os[|os|..] == os + [|os|];
      }
    }
    if DenseScope(rows, scope) {
      DenseNextOrder(Orders(rows, scope));
    }
  }

  // ---------------------------------------------------------------------------
  // deleteLink / deletePackage

  /**
   * Deleting a row removes exactly that row and decrements exactly the rows
   * of its scope whose order was above its own; an unknown id changes nothing.
   */
  lemma {:induction false} DeleteRowSpec<D>(rows: seq<Row<D>>, id: int)
    requires IdsIncreasing(rows)
    ensures var r := DeleteRow(rows, id);
      match Find(rows, id)
      case None => r == rows
      case Some(i) =>
        && |r| == |rows| - 1
        && (forall t :: 0 <= t < |r| ==>
              var w := rows[if t < i then t else t + 1];
              r[t] == if w.scope == rows[i].scope && w.order > rows[i].order then w.(order := w.order - 1) else w)
  {
    match Find(rows, id)
    case None =>
      RemoveIdAbsent(rows, id);
    case Some(i) =>
      var f := rows[i];
      var rest := rows[..i] + rows[i + 1..];
      RemoveIdAt(rows, i);
      var r := Shift(rest, f.scope, f.order + 1, -1);
      assert DeleteRow(rows, id) == r;
      forall t | 0 <= t < |r|
        ensures var w := rows[if t < i then t else t + 1];
          r[t] == if w.scope == f.scope && w.order > f.order then w.(order := w.order - 1) else w
      {
        assert rest[t] == rows[if t < i then t else t + 1];
      }
  }

  /** The orders each scope has after the row at position i is deleted. */
  lemma {:induction false} DeleteRowOrders<D>(rows: seq<Row<D>>, i: nat, s: int)
    requires IdsIncreasing(rows) && i < |rows|
    ensures var f, os, j := rows[i], Orders(rows, s), Count(rows[..i], s);
      if s == f.scope then j < |os| && Orders(DeleteRow(rows, f.id), s) == ShiftAll(os[..j] + os[j + 1..], f.order + 1, -1)
      else Orders(DeleteRow(rows, f.id), s) == os
  {
    var f := rows[i];
    var rest := rows[..i] + rows[i + 1..];
    FindAt(rows, i);
    RemoveIdAt(rows, i);
    assert DeleteRow(rows, f.id) == Shift(rest, f.scope, f.order + 1, -1);
    OrdersShift(rest, f.scope, f.order + 1, -1, s);
    OrdersWithout(rows, i, s);
  }

  /** Deleting the row at position i keeps the ids growing. */
  lemma {:induction false} DeleteRowIds<D>(rows: seq<Row<D>>, i: nat)
    requires IdsIncreasing(rows) && i < |rows|
    ensures IdsIncreasing(DeleteRow(rows, rows[i].id))
  {
    var f := rows[i];
    var rest := rows[..i] + rows[i + 1..];
    FindAt(rows, i);
    RemoveIdAt(rows, i);
    var r := Shift(rest, f.scope, f.order + 1, -1);
    assert DeleteRow(rows, f.id) == r;
    ShiftKeepsIds(rest, f.scope, f.order + 1, -1);
    forall a, b | 0 <= a < b < |r|
      ensures r[a].id < r[b].id
    {
      assert r[a].id == rows[if a < i then a else a + 1].id;
      assert r[b].id == rows[if b < i then b else b + 1].id;
    }
  }

  /** Deleting the row at position i keeps a dense scope dense: the gap is closed. */
  lemma {:induction false} DeleteRowDenseAt<D>(rows: seq<Row<D>>, i: nat, s: int)
    requires IdsIncreasing(rows) && i < |rows| && DenseScope(rows, s)
    ensures DenseScope(DeleteRow(rows, rows[i].id), s)
  {
    DeleteRowOrders(rows, i, s);
    if s == rows[i].scope {
      OrdersIndex(rows, i);
      DenseRemove(Orders(rows, s), Count(rows[..i], s));
    }
  }

  /** After a delete the ids still grow, every dense scope is still dense, and only the row's own scope shrinks. */
  lemma {:induction false} DeleteRowDense<D>(rows: seq<Row<D>>, id: int)
    requires IdsIncreasing(rows)
    ensures var r := DeleteRow(rows, id);
      && IdsIncreasing(r)
      && (forall s :: DenseScope(rows, s) ==> DenseScope(r, s))
      && (Find(rows, id).Some? ==>
            var f := rows[Find(rows, id).value];
            && Count(r, f.scope) == Count(rows, f.scope) - 1
            && forall s :: s != f.scope ==> Orders(r, s) == Orders(rows, s))
  {
    match Find(rows, id)
    case None =>
    case Some(i) =>
      var f := rows[i];
      var r := DeleteRow(rows, id);
      DeleteRowIds(rows, i);
      forall s | DenseScope(rows, s)
        ensures DenseScope(r, s)
      {
        DeleteRowDenseAt(rows, i, s);
      }
      forall s | s != f.scope
        ensures Orders(r, s) == Orders(rows, s)
      {
        DeleteRowOrders(rows, i, s);
      }
      DeleteRowOrders(rows, i, f.scope);
  }

  // ---------------------------------------------------------------------------
  // reorderLink

  /** reorderLink's statements: the two shifts of f's package, then f's own order. */
  lemma {:induction false} MoveIsShifts<D>(rows: seq<Row<D>>, i: nat, to: int)
    requires IdsIncreasing(rows) && i < |rows|
    ensures var f := rows[i];
      var r2 := Shift(Shift(rows, f.scope, f.order + 1, -1), f.scope, to, 1);
      && IdsIncreasing(r2)
      && |r2| == |rows|
      && r2[i].scope == f.scope
      && MoveRow(rows, f.id, f.scope, f.order, to) == r2[i := r2[i].(order := to)]
  {
    var f := rows[i];
    var r1 := Shift(rows, f.scope, f.order + 1, -1);
    var r2 := Shift(r1, f.scope, to, 1);
    ShiftIdsIncreasing(rows, f.scope, f.order + 1, -1);
    ShiftIdsIncreasing(r1, f.scope, to, 1);
    assert r2[i].id == f.id;
    SetOrderAt(r2, i, to);
  }

  /** The shifts leave the number of rows of each scope before position i alone. */
  lemma {:induction false} MoveShiftsCount<D>(rows: seq<Row<D>>, i: nat, to: int, s: int)
    requires i < |rows|
    ensures var f := rows[i];
      var r2 := Shift(Shift(rows, f.scope, f.order + 1, -1), f.scope, to, 1);
      Count(r2[..i], s) == Count(rows[..i], s)
  {
    var f := rows[i];
    var r2 := Shift(Shift(rows, f.scope, f.order + 1, -1), f.scope, to, 1);
    assert forall t :: 0 <= t < i ==> r2[..i][t].scope == rows[..i][t].scope;
    CountSameScopes(r2[..i], rows[..i], s);
  }

  /** A shift keeps the ids growing. */
  lemma {:induction false} ShiftIdsIncreasing<D>(rows: seq<Row<D>>, scope: int, from: int, delta: int)
    requires IdsIncreasing(rows)
    ensures IdsIncreasing(Shift(rows, scope, from, delta))
  {
  }

  /** Two successive shifts of one scope act on its orders as the two bulk updates. */
  lemma {:induction false} TwoShifts<D>(rows: seq<Row<D>>, scope: int, from1: int, delta1: int, from2: int, delta2: int, s: int)
    ensures Orders(Shift(Shift(rows, scope, from1, delta1), scope, from2, delta2), s)
         == if s == scope then ShiftAll(ShiftAll(Orders(rows, s), from1, delta1), from2, delta2) else Orders(rows, s)
  {
    OrdersShift(rows, scope, from1, delta1, s);
    OrdersShift(Shift(rows, scope, from1, delta1), scope, from2, delta2, s);
  }

  /** reorderLink's own package: both bulk updates, then the file's entry set to `to`. */
  lemma {:induction false} MoveRowOrdersOwn<D>(rows: seq<Row<D>>, i: nat, to: int)
    requires IdsIncreasing(rows) && i < |rows|
    ensures var f := rows[i];
      var os, j := Orders(rows, f.scope), Count(rows[..i], f.scope);
      j < |os| && Orders(MoveRow(rows, f.id, f.scope, f.order, to), f.scope) == ShiftAll(ShiftAll(os, f.order + 1, -1), to, 1)[j := to]
  {
    var f := rows[i];
    var r2 := Shift(Shift(rows, f.scope, f.order + 1, -1), f.scope, to, 1);
    var w := r2[i := r2[i].(order := to)];
    var j := Count(rows[..i], f.scope);
    var b := ShiftAll(ShiftAll(Orders(rows, f.scope), f.order + 1, -1), to, 1);
    assert MoveRow(rows, f.id, f.scope, f.order, to) == w && r2[i].scope == f.scope by {
      MoveIsShifts(rows, i, to);
    }
    assert Count(r2[..i], f.scope) == j by {
      MoveShiftsCount(rows, i, to, f.scope);
    }
    assert Orders(r2, f.scope) == b by {
      TwoShifts(rows, f.scope, f.order + 1, -1, to, 1, f.scope);
    }
    OrdersSetAt(r2, i, to, f.scope);
  }

  /** reorderLink leaves the orders of every other package alone. */
  lemma {:induction false} MoveRowOrdersOther<D>(rows: seq<Row<D>>, i: nat, to: int, s: int)
    requires IdsIncreasing(rows) && i < |rows| && s != rows[i].scope
    ensures var f := rows[i];
      Orders(MoveRow(rows, f.id, f.scope, f.order, to), s) == Orders(rows, s)
  {
    var f := rows[i];
    var r2 := Shift(Shift(rows, f.scope, f.order + 1, -1), f.scope, to, 1);
    MoveIsShifts(rows, i, to);
    TwoShifts(rows, f.scope, f.order + 1, -1, to, 1, s);
    OrdersSetAt(r2, i, to, s);
  }

  /** The orders each scope has after reorderLink moves the row at position i to `to`. */
  lemma {:induction false} MoveRowOrders<D>(rows: seq<Row<D>>, i: nat, to: int, s: int)
    requires IdsIncreasing(rows) && i < |rows|
    ensures var f, os, j := rows[i], Orders(rows, s), Count(rows[..i], s);
      if s == f.scope then j < |os| && Orders(MoveRow(rows, f.id, f.scope, f.order, to), s) == ShiftAll(ShiftAll(os, f.order + 1, -1), to, 1)[j := to]
      else Orders(MoveRow(rows, f.id, f.scope, f.order, to), s) == os
  {
    if s == rows[i].scope {
      MoveRowOrdersOwn(rows, i, to);
    } else {
      MoveRowOrdersOther(rows, i, to, s);
    }
  }

  /** reorderLink row by row: the file takes `to`, its package's other files move by Moved. */
  lemma {:induction false} MoveRowRows<D>(rows: seq<Row<D>>, i: nat, to: int)
    requires IdsIncreasing(rows) && i < |rows|
    ensures var f := rows[i];
      var r := MoveRow(rows, f.id, f.scope, f.order, to);
      && |r| == |rows|
      && IdsIncreasing(r)
      && r[i] == f.(order := to)
      && (forall t :: 0 <= t < |rows| && t != i ==>
            r[t] == if rows[t].scope == f.scope then rows[t].(order := Moved(rows[t].order, f.order, to)) else rows[t])
  {
  }

  /** reorderLink(f, k) with 0 <= k < n keeps f's dense package dense. */
  lemma {:induction false} MoveRowDense<D>(rows: seq<Row<D>>, i: nat, to: int)
    requires IdsIncreasing(rows) && i < |rows|
    requires DenseScope(rows, rows[i].scope) && 0 <= to < Count(rows, rows[i].scope)
    ensures var f := rows[i];
      DenseScope(MoveRow(rows, f.id, f.scope, f.order, to), f.scope)
  {
    var f := rows[i];
    MoveRowOrders(rows, i, to, f.scope);
    OrdersIndex(rows, i);
    DenseMove(Orders(rows, f.scope), Count(rows[..i], f.scope), to);
  }

  /** The other files of a dense package keep their relative order under reorderLink. */
  lemma {:induction false} MoveRowKeepsRelativeOrder<D>(rows: seq<Row<D>>, i: nat, to: int)
    requires IdsIncreasing(rows) && i < |rows| && DenseScope(rows, rows[i].scope)
    ensures var f := rows[i];
      var r := MoveRow(rows, f.id, f.scope, f.order, to);
      forall a, b :: (0 <= a < |rows| && 0 <= b < |rows| && a != i && b != i
        && rows[a].scope == f.scope && rows[b].scope == f.scope) ==>
          (rows[a].order < rows[b].order <==> r[a].order < r[b].order)
  {
    var f := rows[i];
    var r := MoveRow(rows, f.id, f.scope, f.order, to);
    MoveRowRows(rows, i, to);
    forall t | 0 <= t < |rows| && t != i && rows[t].scope == f.scope
      ensures rows[t].order != f.order
    {
      if t < i { DenseDistinct(rows, f.scope, t, i); } else { DenseDistinct(rows, f.scope, i, t); }
    }
    forall a, b | 0 <= a < |rows| && 0 <= b < |rows| && a != i && b != i
      && rows[a].scope == f.scope && rows[b].scope == f.scope
      ensures rows[a].order < rows[b].order <==> r[a].order < r[b].order
    {
      MovedMonotone(rows[a].order, rows[b].order, f.order, to);
    }
  }

  /**
   * reorderLink(f, k) on a dense package with 0 <= k < n: f lands at k, the
   * other files of the package keep their relative order and stay dense, and
   * no row of another package changes.
   */
  lemma {:induction false} MoveRowSpec<D>(rows: seq<Row<D>>, i: nat, to: int)
    requires IdsIncreasing(rows) && i < |rows|
    requires DenseScope(rows, rows[i].scope) && 0 <= to < Count(rows, rows[i].scope)
    ensures var f := rows[i];
      var r := MoveRow(rows, f.id, f.scope, f.order, to);
      && |r| == |rows|
      && IdsIncreasing(r)
      && r[i] == f.(order := to)
      && (forall t :: 0 <= t < |rows| && t != i ==>
            r[t] == if rows[t].scope == f.scope then rows[t].(order := Moved(rows[t].order, f.order, to)) else rows[t])
      && (forall a, b :: (0 <= a < |rows| && 0 <= b < |rows| && a != i && b != i
            && rows[a].scope == f.scope && rows[b].scope == f.scope) ==>
              (rows[a].order < rows[b].order <==> r[a].order < r[b].order))
      && DenseScope(r, f.scope)
      && (forall s :: s != f.scope ==> Orders(r, s) == Orders(rows, s))
  {
    var f := rows[i];
    var r := MoveRow(rows, f.id, f.scope, f.order, to);
    MoveRowRows(rows, i, to);
    MoveRowKeepsRelativeOrder(rows, i, to);
    MoveRowDense(rows, i, to);
    forall s | s != f.scope
      ensures Orders(r, s) == Orders(rows, s)
    {
      MoveRowOrders(rows, i, to, s);
    }
  }

  /** updateLink (the `f.sync()` that ends reorderLink) writes back what the row holds. */
  lemma {:induction false} UpdateLinkRowUnchanged(rows: seq<LinkRow>, i: nat)
    requires IdsIncreasing(rows) && i < |rows|
    ensures var w := rows[i];
      UpdateLinkRow(rows, w.id, w.data.url, w.data.name, w.data.status, w.scope) == rows
  {
  }

  // ---------------------------------------------------------------------------
  // reorderPackage

  /** Away from position 0, the `> 0` guard of reorderPackage excludes nothing. */
  lemma {:induction false} ReorderIsMove<D>(rows: seq<Row<D>>, p: Row<D>, position: int)
    requires 0 <= p.order && 1 <= position
    ensures ReorderPackageRows(rows, p, position, false) == MoveRow(rows, p.id, p.scope, p.order, position)
  {
  }

  /** With the `>= 0` guard, reorderPackage to any position 0 <= k is reorderLink's move. */
  lemma {:induction false} IntendedReorderIsMove<D>(rows: seq<Row<D>>, p: Row<D>, position: int)
    requires 0 <= p.order && 0 <= position
    ensures ReorderPackageRowsIntended(rows, p, position, false) == MoveRow(rows, p.id, p.scope, p.order, position)
  {
  }

  /**
   * reorderPackage(p, k) with 1 <= k < n on a dense queue, p read fresh: the
   * `> 0` guard is harmless there and the statements are reorderLink's, with
   * all of MoveRowSpec's guarantees.
   */
  lemma {:induction false} ReorderPackageInside<D>(rows: seq<Row<D>>, i: nat, position: int)
    requires IdsIncreasing(rows) && i < |rows|
    requires DenseScope(rows, rows[i].scope) && 1 <= position < Count(rows, rows[i].scope)
    ensures var p := rows[i];
      var r := ReorderPackageRows(rows, p, position, false);
      && r == MoveRow(rows, p.id, p.scope, p.order, position)
      && r[i] == p.(order := position)
      && DenseScope(r, p.scope)
      && (forall s :: s != p.scope ==> Orders(r, s) == Orders(rows, s))
  {
    var p := rows[i];
    DenseOrderInRange(rows, i);
    ReorderIsMove(rows, p, position);
    MoveRowRows(rows, i, position);
    MoveRowDense(rows, i, position);
    forall s | s != p.scope
      ensures Orders(MoveRow(rows, p.id, p.scope, p.order, position), s) == Orders(rows, s)
    {
      MoveRowOrders(rows, i, position, s);
    }
  }

  /**
   * reorderPackage(p, -1, noMove=True): p takes the next free order of its
   * queue and no other row changes.
   */
  lemma {:induction false} ReorderPackageAppendNoMove<D>(rows: seq<Row<D>>, i: nat)
    requires IdsIncreasing(rows) && i < |rows|
    ensures var p := rows[i];
      ReorderPackageRows(rows, p, -1, true) == rows[i := p.(order := NextOrderIn(rows, p.scope))]
  {
    SetOrderAt(rows, i, NextOrderIn(rows, rows[i].scope));
  }

  /**
   * reorderPackage(p, -1) as written, with the shifts: the target is the
   * next free order n of the dense queue, computed before the first shift
   * frees p's own slot, so p lands at n while the others close up to
   * 0 .. n-2: slot n-1 stays empty and the queue is no longer dense.
   */
  lemma {:induction false} ReorderPackageAppendLeavesGap<D>(rows: seq<Row<D>>, i: nat)
    requires IdsIncreasing(rows) && i < |rows| && DenseScope(rows, rows[i].scope)
    ensures var p, n := rows[i], Count(rows, rows[i].scope);
      var r := ReorderPackageRows(rows, p, -1, false);
      && NextOrderIn(rows, p.scope) == n
      && r == MoveRow(rows, p.id, p.scope, p.order, n)
      && r[i] == p.(order := n)
      && (forall t :: 0 <= t < |rows| && t != i && rows[t].scope == p.scope ==> r[t].scope == p.scope && r[t].order < n - 1)
      && !DenseScope(r, p.scope)
      && (forall s :: s != p.scope ==> Orders(r, s) == Orders(rows, s))
  {
    var p, n := rows[i], Count(rows, rows[i].scope);
    DenseOrderInRange(rows, i);
    DenseNextOrder(Orders(rows, p.scope));
    assert ReorderPackageRows(rows, p, -1, false) == ReorderPackageRows(rows, p, n, false);
    ReorderIsMove(rows, p, n);
    var r := MoveRow(rows, p.id, p.scope, p.order, n);
    MoveRowRows(rows, i, n);
    forall t | 0 <= t < |rows| && t != i && rows[t].scope == p.scope
      ensures r[t].scope == p.scope && r[t].order < n - 1
    {
      if t < i { DenseDistinct(rows, p.scope, t, i); } else { DenseDistinct(rows, p.scope, i, t); }
      DenseOrderInRange(rows, t);
    }
    assert Count(r, p.scope) == n by {
      CountSameScopes(r, rows, p.scope);
    }
    if DenseScope(r, p.scope) {
      assert n - 1 in Orders(r, p.scope);
      OrdersMembers(r, p.scope, n - 1);
      assert false;
    }
    forall s | s != p.scope
      ensures Orders(r, s) == Orders(rows, s)
    {
      MoveRowOrders(rows, i, n, s);
    }
  }

  /**
   * reorderPackage(p, 0) as written: the row already at position 0 is not
   * shifted (it fails `packageorder > 0`), so moving the second of two
   * packages of a queue to the front leaves both at position 0.
   */
  lemma {:induction false} ReorderPackageToFrontCollides()
    ensures var rows := [Row(1, Queue, 0, PackageData("a", "a")), Row(2, Queue, 1, PackageData("b", "b"))];
      var r := ReorderPackageRows(rows, rows[1], 0, false);
      && DenseScope(rows, Queue)
      && r[0].order == 0 && r[1].order == 0
      && !DenseScope(r, Queue)
  {
    var rows := [Row(1, Queue, 0, PackageData("a", "a")), Row(2, Queue, 1, PackageData("b", "b"))];
    var a, b := rows[0], rows[1];
    // the statements one by one: the first shift finds nothing above b; the
    // second moves b, but not a, which fails `packageorder > 0`
    var s1 := Shift(rows, Queue, Max(b.order, 0) + 1, -1);
    assert s1[0] == a && s1[1] == b;
    var s2 := Shift(s1, Queue, Max(0, 1), 1);
    assert s2[0] == a && s2[1] == b.(order := 2);
    var w := SetOrder(s2, b.id, 0);
    assert w[0] == a && w[1] == b.(order := 0);
    assert ReorderPackageRows(rows, b, 0, false) == w;
    var r := w;
    OrdersSplit(rows, 1, Queue);
    assert rows[..1] == [rows[0]];
    OrdersSingle(rows[0], Queue);
    OrdersSingle(rows[1], Queue);
    assert Orders(rows, Queue) == [0, 1];
    var dense: seq<int> := [0, 1];
    forall k | 0 <= k < 2
      ensures k in dense
    {
      assert dense[k] == k;
    }
    assert Dense(dense);
    DenseSame(dense, Orders(rows, Queue));
    OrdersSplit(r, 1, Queue);
    assert r[..1] == [r[0]];
    OrdersSingle(r[0], Queue);
    OrdersSingle(r[1], Queue);
    assert Orders(r, Queue) == [0, 0];
    var os := Orders(r, Queue);
    assert os[0] == os[1];
  }

  /**
   * With the guard written `packageorder >= 0`, reorderPackage(p, k) is
   * reorderLink's move for every 0 <= k < n, the front included, so a dense
   * queue stays dense.
   */
  lemma {:induction false} ReorderPackageIntendedDense<D>(rows: seq<Row<D>>, i: nat, position: int)
    requires IdsIncreasing(rows) && i < |rows|
    requires DenseScope(rows, rows[i].scope) && 0 <= position < Count(rows, rows[i].scope)
    ensures var p := rows[i];
      var r := ReorderPackageRowsIntended(rows, p, position, false);
      && r == MoveRow(rows, p.id, p.scope, p.order, position)
      && r[i] == p.(order := position)
      && DenseScope(r, p.scope)
      && (forall s :: s != p.scope ==> Orders(r, s) == Orders(rows, s))
  {
    var p := rows[i];
    DenseOrderInRange(rows, i);
    IntendedReorderIsMove(rows, p, position);
    MoveRowRows(rows, i, position);
    MoveRowDense(rows, i, position);
    forall s | s != p.scope
      ensures Orders(MoveRow(rows, p.id, p.scope, p.order, position), s) == Orders(rows, s)
    {
      MoveRowOrders(rows, i, position, s);
    }
  }

  /**
   * reorderPackage(p, -1) as intended, with the shifts: -1 is the last
   * position n-1 of the dense queue, so p moves there, the others close up
   * in order and the queue stays dense.
   */
  lemma {:induction false} ReorderPackageIntendedAppend<D>(rows: seq<Row<D>>, i: nat)
    requires IdsIncreasing(rows) && i < |rows| && DenseScope(rows, rows[i].scope)
    ensures var p, n := rows[i], Count(rows, rows[i].scope);
      var r := ReorderPackageRowsIntended(rows, p, -1, false);
      && r == MoveRow(rows, p.id, p.scope, p.order, n - 1)
      && r[i] == p.(order := n - 1)
      && DenseScope(r, p.scope)
      && (forall s :: s != p.scope ==> Orders(r, s) == Orders(rows, s))
  {
    var p, n := rows[i], Count(rows, rows[i].scope);
    DenseOrderInRange(rows, i);
    DenseNextOrder(Orders(rows, p.scope));
    assert ReorderPackageRowsIntended(rows, p, -1, false) == ReorderPackageRowsIntended(rows, p, n - 1, false);
    ReorderPackageIntendedDense(rows, i, n - 1);
  }

  // ---------------------------------------------------------------------------
  // clearPackageOrder + setPackageLocation

  /**
   * clearPackageOrder(p) on a fresh snapshot: p's order becomes -1, the
   * packages of its queue above it move down by one, nothing else changes.
   */
  lemma {:induction false} ClearPackageOrderSpec<D>(rows: seq<Row<D>>, i: nat)
    requires IdsIncreasing(rows) && i < |rows|
    ensures var p := rows[i];
      var r := ClearPackageOrderRows(rows, p);
      && |r| == |rows|
      && r[i] == p.(order := -1)
      && (forall t :: 0 <= t < |rows| && t != i ==>
            r[t] == if rows[t].scope == p.scope && rows[t].order > p.order then rows[t].(order := rows[t].order - 1) else rows[t])
  {
  }

  /** The table once the shift of clearPackageOrder has closed the gap of the row at position i. */
  ghost function Gap<D>(rows: seq<Row<D>>, i: nat): (r: seq<Row<D>>)
    requires i < |rows|
    ensures |r| == |rows|
  {
    Shift(rows, rows[i].scope, rows[i].order + 1, -1)
  }

  /** The orders of scope s in that table before position i. */
  ghost function Left<D>(rows: seq<Row<D>>, i: nat, s: int): seq<int>
    requires i < |rows|
  {
    Orders(Gap(rows, i)[..i], s)
  }

  /** The orders of scope s in that table after position i. */
  ghost function Right<D>(rows: seq<Row<D>>, i: nat, s: int): seq<int>
    requires i < |rows|
  {
    Orders(Gap(rows, i)[i + 1..], s)
  }

  /** The order the row at position i receives in `queue`: the next free one, its own order cleared to -1. */
  ghost function Slot<D>(rows: seq<Row<D>>, i: nat, queue: int): int
    requires i < |rows|
  {
    NextOrder(Left(rows, i, queue) + [-1] + Right(rows, i, queue))
  }

  /**
   * The rows setPackageLocation leaves: the old queue shifted down above p,
   * and p, with its data, in `queue` at that queue's next free order.
   */
  lemma {:induction false} SetLocationShape(rows: seq<PackageRow>, i: nat, queue: int)
    requires IdsIncreasing(rows) && i < |rows|
    ensures var p := rows[i];
      var m := Gap(rows, i)[i := Row(p.id, queue, -1, p.data)];
      && IdsIncreasing(m)
      && SetLocationRows(rows, p.id, queue) == m[i := m[i].(order := NextOrderIn(m, queue))]
  {
    var p := rows[i];
    FindAt(rows, i);
    var sh := Gap(rows, i);
    var m := sh[i := Row(p.id, queue, -1, p.data)];
    var cleared := ClearPackageOrderRows(rows, p);
    ClearPackageOrderSpec(rows, i);
    assert cleared == sh[i := p.(order := -1)];
    UpdatePackageRowAt(cleared, i, p.data.name, p.data.folder, queue);
    assert UpdatePackageRow(cleared, p.id, p.data.name, p.data.folder, queue) == m;
    ShiftKeepsIds(rows, p.scope, p.order + 1, -1);
    assert IdsIncreasing(m);
    ReorderPackageAppendNoMove(m, i);
  }

  /** Each scope's orders when the row at position i is replaced by w. */
  lemma {:induction false} PlaceOrders<D>(sh: seq<Row<D>>, i: nat, w: Row<D>, s: int)
    requires i < |sh|
    ensures Orders(sh[i := w], s) == Orders(sh[..i], s) + (if w.scope == s then [w.order] else []) + Orders(sh[i + 1..], s)
  {
    OrdersPointUpdate(sh, i, w, s);
    OrdersSingle(w, s);
  }

  /** Around the row at position i, the shift that closes its gap leaves the orders of its scope without it, closed up. */
  lemma {:induction false} ShiftedAroundOwn<D>(rows: seq<Row<D>>, i: nat)
    requires i < |rows|
    ensures var s := rows[i].scope;
      var os, j := Orders(rows, s), Count(rows[..i], s);
      && j < |os| && os[j] == rows[i].order
      && Left(rows, i, s) + Right(rows, i, s) == ShiftAll(os[..j] + os[j + 1..], os[j] + 1, -1)
  {
    var p := rows[i];
    var s := p.scope;
    var sh := Gap(rows, i);
    var rest := rows[..i] + rows[i + 1..];
    var os, j := Orders(rows, s), Count(rows[..i], s);
    assert sh[..i] + sh[i + 1..] == Shift(rest, s, p.order + 1, -1) by {
      ShiftWithout(rows, i, s, p.order + 1, -1);
    }
    assert Orders(sh[..i], s) + Orders(sh[i + 1..], s) == Orders(sh[..i] + sh[i + 1..], s) by {
      OrdersConcat(sh[..i], sh[i + 1..], s);
    }
    assert Orders(Shift(rest, s, p.order + 1, -1), s) == ShiftAll(Orders(rest, s), p.order + 1, -1) by {
      OrdersShift(rest, s, p.order + 1, -1, s);
    }
    assert j < |os| && Orders(rest, s) == os[..j] + os[j + 1..] by {
      OrdersWithoutOwn(rows, i);
    }
    assert os[j] == p.order by {
      OrdersIndex(rows, i);
    }
  }

  /** Around the row at position i, every other scope keeps its orders. */
  lemma {:induction false} ShiftedAroundOther<D>(rows: seq<Row<D>>, i: nat, s: int)
    requires i < |rows| && s != rows[i].scope
    ensures Left(rows, i, s) + Right(rows, i, s) == Orders(rows, s)
  {
    var p := rows[i];
    var sh := Gap(rows, i);
    var rest := rows[..i] + rows[i + 1..];
    assert sh[..i] + sh[i + 1..] == Shift(rest, p.scope, p.order + 1, -1) by {
      ShiftWithout(rows, i, p.scope, p.order + 1, -1);
    }
    assert Orders(sh[..i], s) + Orders(sh[i + 1..], s) == Orders(sh[..i] + sh[i + 1..], s) by {
      OrdersConcat(sh[..i], sh[i + 1..], s);
    }
    assert Orders(Shift(rest, p.scope, p.order + 1, -1), s) == Orders(rest, s) by {
      OrdersShift(rest, p.scope, p.order + 1, -1, s);
    }
    assert Orders(rest, s) == Orders(rows, s) by {
      OrdersWithoutOther(rows, i, s);
    }
  }

  /** The old queue of a dense row, with the row's gap closed, is dense. */
  lemma {:induction false} GapDense<D>(rows: seq<Row<D>>, i: nat)
    requires i < |rows| && DenseScope(rows, rows[i].scope)
    ensures Dense(Left(rows, i, rows[i].scope) + Right(rows, i, rows[i].scope))
  {
    var s := rows[i].scope;
    var os, j := Orders(rows, s), Count(rows[..i], s);
    ShiftedAroundOwn(rows, i);
    DenseRemove(os, j);
    DenseSame(ShiftAll(os[..j] + os[j + 1..], os[j] + 1, -1), Left(rows, i, s) + Right(rows, i, s));
  }

  /** setPackageLocation row by row: p moves to `queue` with its data, the old queue closes the gap. */
  lemma {:induction false} SetLocationRowsSpec(rows: seq<Row<PackageData>>, i: nat, queue: int)
    requires IdsIncreasing(rows) && i < |rows|
    ensures var p := rows[i];
      var r := SetLocationRows(rows, p.id, queue);
      && |r| == |rows|
      && IdsIncreasing(r)
      && r[i] == Row(p.id, queue, r[i].order, p.data)
      && (forall t :: 0 <= t < |rows| && t != i ==>
            r[t] == if rows[t].scope == p.scope && rows[t].order > p.order then rows[t].(order := rows[t].order - 1) else rows[t])
  {
    SetLocationShape(rows, i, queue);
  }

  /** The table setPackageLocation leaves, with p's new order read off the target queue's other rows. */
  lemma {:induction false} SetLocationPlaced(rows: seq<Row<PackageData>>, i: nat, queue: int)
    requires IdsIncreasing(rows) && i < |rows|
    ensures var p := rows[i];
      SetLocationRows(rows, p.id, queue) == Gap(rows, i)[i := Row(p.id, queue, Slot(rows, i, queue), p.data)]
  {
    var p := rows[i];
    var sh := Gap(rows, i);
    var m := sh[i := Row(p.id, queue, -1, p.data)];
    SetLocationShape(rows, i, queue);
    assert NextOrderIn(m, queue) == Slot(rows, i, queue) by {
      PlaceOrders(sh, i, Row(p.id, queue, -1, p.data), queue);
    }
    assert m[i := Row(p.id, queue, Slot(rows, i, queue), p.data)] == sh[i := Row(p.id, queue, Slot(rows, i, queue), p.data)];
  }

  /** Each queue's orders after setPackageLocation: the others around p, and p's slot in `queue`. */
  lemma {:induction false} SetLocationOrders(rows: seq<Row<PackageData>>, i: nat, queue: int, s: int)
    requires IdsIncreasing(rows) && i < |rows|
    ensures Orders(SetLocationRows(rows, rows[i].id, queue), s)
      == Left(rows, i, s) + (if s == queue then [Slot(rows, i, queue)] else []) + Right(rows, i, s)
  {
    var p := rows[i];
    SetLocationPlaced(rows, i, queue);
    PlaceOrders(Gap(rows, i), i, Row(p.id, queue, Slot(rows, i, queue), p.data), s);
  }

  /** setPackageLocation into the queue p is already in: p goes to the tail, the queue stays dense. */
  lemma {:induction false} SetLocationSameQueue(rows: seq<Row<PackageData>>, i: nat)
    requires IdsIncreasing(rows) && i < |rows| && DenseScope(rows, rows[i].scope)
    ensures var p := rows[i];
      var r := SetLocationRows(rows, p.id, p.scope);
      && |r| == |rows|
      && r[i].order == Count(rows, p.scope) - 1
      && DenseScope(r, p.scope)
  {
    var q := rows[i].scope;
    var a, b := Left(rows, i, q), Right(rows, i, q);
    var os, j := Orders(rows, q), Count(rows[..i], q);
    var r := SetLocationRows(rows, rows[i].id, q);
    assert r == Gap(rows, i)[i := Row(rows[i].id, q, Slot(rows, i, q), rows[i].data)] by {
      SetLocationPlaced(rows, i, q);
    }
    assert Orders(r, q) == a + [Slot(rows, i, q)] + b by {
      SetLocationOrders(rows, i, q, q);
    }
    assert j < |os| && a + b == ShiftAll(os[..j] + os[j + 1..], os[j] + 1, -1) by {
      ShiftedAroundOwn(rows, i);
    }
    assert Slot(rows, i, q) == |os| - 1 && Dense(a + [|os| - 1] + b) by {
      DenseRemoveFill(os, j, a, b);
    }
    DenseSame(a + [|os| - 1] + b, Orders(r, q));
  }

  /** setPackageLocation into the other queue: both stay dense, p takes the tail slot of the new one. */
  lemma {:induction false} SetLocationOtherQueue(rows: seq<Row<PackageData>>, i: nat, queue: int)
    requires IdsIncreasing(rows) && i < |rows| && queue != rows[i].scope
    requires DenseScope(rows, rows[i].scope) && DenseScope(rows, queue)
    ensures var p := rows[i];
      var r := SetLocationRows(rows, p.id, queue);
      && |r| == |rows|
      && r[i].order == Count(rows, queue)
      && DenseScope(r, p.scope)
      && DenseScope(r, queue)
  {
    var qo := rows[i].scope;
    var a, b := Left(rows, i, queue), Right(rows, i, queue);
    var r := SetLocationRows(rows, rows[i].id, queue);
    assert r == Gap(rows, i)[i := Row(rows[i].id, queue, Slot(rows, i, queue), rows[i].data)] by {
      SetLocationPlaced(rows, i, queue);
    }
    assert a + b == Orders(rows, queue) by {
      ShiftedAroundOther(rows, i, queue);
    }
    assert Slot(rows, i, queue) == |a| + |b| && Dense(a + [|a| + |b|] + b) by {
      DenseFill(a, b, Orders(rows, queue));
    }
    assert Orders(r, queue) == a + [Slot(rows, i, queue)] + b by {
      SetLocationOrders(rows, i, queue, queue);
    }
    DenseSame(a + [|a| + |b|] + b, Orders(r, queue));
    assert Orders(r, qo) == Left(rows, i, qo) + Right(rows, i, qo) by {
      SetLocationOrders(rows, i, queue, qo);
    }
    GapDense(rows, i);
    DenseSame(Left(rows, i, qo) + Right(rows, i, qo), Orders(r, qo));
  }

  /** setPackageLocation between dense queues keeps both dense; p takes the tail slot of `queue`. */
  lemma {:induction false} SetLocationDense(rows: seq<Row<PackageData>>, i: nat, queue: int)
    requires IdsIncreasing(rows) && i < |rows|
    requires DenseScope(rows, rows[i].scope) && DenseScope(rows, queue)
    ensures var p := rows[i];
      var r := SetLocationRows(rows, p.id, queue);
      && |r| == |rows|
      && r[i].order == (if queue == p.scope then Count(rows, queue) - 1 else Count(rows, queue))
      && DenseScope(r, p.scope)
      && DenseScope(r, queue)
  {
    if queue == rows[i].scope {
      SetLocationSameQueue(rows, i);
    } else {
      SetLocationOtherQueue(rows, i, queue);
    }
  }

  /** setPackageLocation leaves every queue other than the old and the new one alone. */
  lemma {:induction false} SetLocationOthers(rows: seq<Row<PackageData>>, i: nat, queue: int, s: int)
    requires IdsIncreasing(rows) && i < |rows| && s != rows[i].scope && s != queue
    ensures Orders(SetLocationRows(rows, rows[i].id, queue), s) == Orders(rows, s)
  {
    SetLocationOrders(rows, i, queue, s);
    ShiftedAroundOther(rows, i, s);
    assert Left(rows, i, s) + [] + Right(rows, i, s) == Left(rows, i, s) + Right(rows, i, s);
  }

  /**
   * setPackageLocation(p, q) between dense queues: p keeps its table row and
   * data, gets queue q and the tail position of q; the old queue closes its
   * gap; both queues are dense afterwards and no other queue changes.
   */
  lemma {:induction false} SetLocationSpec(rows: seq<Row<PackageData>>, i: nat, queue: int)
    requires IdsIncreasing(rows) && i < |rows|
    requires DenseScope(rows, rows[i].scope) && DenseScope(rows, queue)
    ensures var p := rows[i];
      var r := SetLocationRows(rows, p.id, queue);
      && |r| == |rows|
      && IdsIncreasing(r)
      && r[i] == Row(p.id, queue, if queue == p.scope then Count(rows, queue) - 1 else Count(rows, queue), p.data)
      && (forall t :: 0 <= t < |rows| && t != i ==>
            r[t] == if rows[t].scope == p.scope && rows[t].order > p.order then rows[t].(order := rows[t].order - 1) else rows[t])
      && DenseScope(r, p.scope)
      && DenseScope(r, queue)
      && (forall s :: s != p.scope && s != queue ==> Orders(r, s) == Orders(rows, s))
  {
    var p := rows[i];
    SetLocationRowsSpec(rows, i, queue);
    SetLocationDense(rows, i, queue);
    forall s | s != p.scope && s != queue
      ensures Orders(SetLocationRows(rows, p.id, queue), s) == Orders(rows, s)
    {
      SetLocationOthers(rows, i, queue, s);
    }
  }

  // ---------------------------------------------------------------------------
  // The links half of deletePackage

  /**
   * Deleting a package's links removes every link of that package and no
   * other; every other package keeps its links and their orders.
   */
  lemma {:induction false} RemoveScopeSpec<D>(rows: seq<Row<D>>, scope: int)
    requires IdsIncreasing(rows)
    ensures var r := RemoveScope(rows, scope);
      && IdsIncreasing(r)
      && (forall x :: x in r <==> x in rows && x.scope != scope)
      && (forall s :: s != scope ==> Orders(r, s) == Orders(rows, s))
      && (forall s :: s != scope && DenseScope(rows, s) ==> DenseScope(r, s))
  {
    RemoveScopeIdsIncreasing(rows, scope);
    forall x
      ensures x in RemoveScope(rows, scope) <==> x in rows && x.scope != scope
    {
      RemoveScopeMembers(rows, scope, x);
    }
    forall s | s != scope
      ensures Orders(RemoveScope(rows, scope), s) == Orders(rows, s)
    {
      OrdersRemoveScope(rows, scope, s);
    }
  }

  // ---------------------------------------------------------------------------
  // restartFile / restartPackage

  /**
   * Restarting a link sets its status to queued and touches nothing else:
   * every row keeps its id, package, order, url, name and plugin, so every
   * package keeps its positions.
   */
  lemma {:induction false} RestartLinkRowSpec(rows: seq<LinkRow>, id: int)
    ensures var r := RestartLinkRow(rows, id);
      && (forall i :: 0 <= i < |rows| ==>
            && r[i].id == rows[i].id && r[i].scope == rows[i].scope && r[i].order == rows[i].order
            && r[i].data.url == rows[i].data.url && r[i].data.name == rows[i].data.name
            && r[i].data.plugin == rows[i].data.plugin
            && r[i].data.status == (if rows[i].id == id then Queued else rows[i].data.status))
      && (forall s :: Orders(r, s) == Orders(rows, s))
      && Find(r, id) == Find(rows, id)
  {
    var r := RestartLinkRow(rows, id);
    forall s
      ensures Orders(r, s) == Orders(rows, s)
    {
      OrdersSameLayout(r, rows, s);
    }
    FindSameIds(r, rows, id);
  }

  /** Restarting a package queues each of its links and changes nothing else. */
  lemma {:induction false} RestartScopeRowsSpec(rows: seq<LinkRow>, package: int)
    ensures var r := RestartScopeRows(rows, package);
      && (forall i :: 0 <= i < |rows| ==>
            && r[i].id == rows[i].id && r[i].scope == rows[i].scope && r[i].order == rows[i].order
            && r[i].data.url == rows[i].data.url && r[i].data.name == rows[i].data.name
            && r[i].data.plugin == rows[i].data.plugin
            && r[i].data.status == (if rows[i].scope == package then Queued else rows[i].data.status))
      && (forall s :: Orders(r, s) == Orders(rows, s))
      && (forall k :: Find(r, k) == Find(rows, k))
  {
    var r := RestartScopeRows(rows, package);
    forall s
      ensures Orders(r, s) == Orders(rows, s)
    {
      OrdersSameLayout(r, rows, s);
    }
    forall k
      ensures Find(r, k) == Find(rows, k)
    {
      FindSameIds(r, rows, k);
    }
  }
}
