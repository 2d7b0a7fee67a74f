/**
 * Position indices of one ordering scope (the files of one package, or the
 * packages of one list), seen as the sequence of their `order` values in
 * table order, and the renumberings the file database applies to them.
 */
module Positions {

  function Max(a: int, b: int): int
  {
    if a < b then b else a
  }

  /**
   * The running maximum of `_nextFileOrder` / `_nextPackageOrder`: it starts
   * at -1 and takes the larger of itself and each order in turn.
   */
  function MaxOrder(os: seq<int>): (m: int)
    ensures -1 <= m
    ensures forall i :: 0 <= i < |os| ==> os[i] <= m
    ensures m == -1 || m in os
  {
    if os == [] then -1
    else
      var m' := MaxOrder(os[..|os| - 1]);
      assert os == os[..|os| - 1] + [os[|os| - 1]];
      Max(m', os[|os| - 1])
  }

  /** The next free position of a scope: one past the running maximum. */
  function NextOrder(os: seq<int>): int
  {
    MaxOrder(os) + 1
  }

  /** The orders of a scope are exactly 0, 1, ..., n-1, each exactly once. */
  ghost predicate Dense(os: seq<int>)
  {
    && (forall i :: 0 <= i < |os| ==> 0 <= os[i] < |os|)
    && (forall i, j :: 0 <= i < j < |os| ==> os[i] != os[j])
    && (forall k :: 0 <= k < |os| ==> k in os)
  }

  /** Density carried over an equation, without unfolding it. */
  lemma {:induction false} DenseSame(x: seq<int>, y: seq<int>)
    requires x == y && Dense(x)
    ensures Dense(y)
  {
  }

  /** `order = order + delta` applied where `order >= from`. */
  function Bump(x: int, from: int, delta: int): int
  {
    if x >= from then x + delta else x
  }

  /** One bulk `UPDATE ... SET order = order + delta WHERE order >= from` on a scope. */
  function ShiftAll(os: seq<int>, from: int, delta: int): (r: seq<int>)
    ensures |r| == |os|
  {
    seq(|os|, i requires 0 <= i < |os| => Bump(os[i], from, delta))
  }

  /** The new position of a bystander when the member at `from` moves to `to`. */
  function Moved(x: int, from: int, to: int): int
  {
    Bump(Bump(x, from + 1, -1), to, 1)
  }

  /** On a dense scope the next free position is the number of members. */
  lemma {:induction false} DenseNextOrder(os: seq<int>)
    requires Dense(os)
    ensures NextOrder(os) == |os|
  {
    var m := MaxOrder(os);
    if |os| > 0 {
      assert |os| - 1 in os;
      var t :| 0 <= t < |os| && os[t] == |os| - 1;
      assert os[t] <= m;
      if m != -1 {
        var u :| 0 <= u < |os| && os[u] == m;
      }
    } else {
      assert m == -1;
    }
  }

  /** A dense scope stays dense when a member with position n joins at any table position. */
  lemma {:induction false} DenseInsert(os: seq<int>, r: nat)
    requires Dense(os) && r <= |os|
    ensures Dense(os[..r] + [|os|] + os[r..])
  {
    var n := |os|;
    var ns := os[..r] + [n] + os[r..];
    assert |ns| == n + 1;
    forall i | 0 <= i < |ns|
      ensures ns[i] == (if i < r then os[i] else if i == r then n else os[i - 1])
    {
    }
    forall i, j | 0 <= i < j < |ns|
      ensures ns[i] != ns[j]
    {
      if i != r && j != r {
        var a := if i < r then i else i - 1;
        var b := if j < r then j else j - 1;
        assert a < b;
        assert ns[i] == os[a] && ns[j] == os[b];
      }
    }
    forall k | 0 <= k < |ns|
      ensures k in ns
    {
      if k < n {
        assert k in os;
        var t :| 0 <= t < n && os[t] == k;
        var t' := if t < r then t else t + 1;
        assert ns[t'] == k;
      } else {
        assert ns[r] == k;
      }
    }
  }

  /** Closing the gap at `o` maps the other positions 0 .. n-1 onto 0 .. n-2. */
  lemma {:induction false} ClosedRange(x: int, o: int, n: int)
    requires 0 <= x < n && 0 <= o < n && x != o
    ensures 0 <= Bump(x, o + 1, -1) < n - 1
  {
  }

  /** Every position below n-1 is where some other position lands when the gap at `o` closes. */
  lemma {:induction false} ClosedOnto(y: int, o: int, n: int) returns (x: int)
    requires 0 <= y < n - 1 && 0 <= o < n
    ensures 0 <= x < n && x != o && Bump(x, o + 1, -1) == y
  {
    x := if y < o then y else y + 1;
  }

  /** The member that ends at table position t once the member at j is removed. */
  function Skip(t: nat, j: nat): nat
  {
    if t < j then t else t + 1
  }

  /** Entry t of the closed-up scope is the renumbered order of member Skip(t, j). */
  lemma {:induction false} RemovedAt(os: seq<int>, j: nat, t: nat)
    requires j < |os| && t < |os| - 1
    ensures ShiftAll(os[..j] + os[j + 1..], os[j] + 1, -1)[t] == Bump(os[Skip(t, j)], os[j] + 1, -1)
  {
    var rest := os[..j] + os[j + 1..];
    assert rest[t] == os[Skip(t, j)];
  }

  /** In a dense scope only the member at j has the order os[j]. */
  lemma {:induction false} DenseOthers(os: seq<int>, j: nat, t: nat)
    requires Dense(os) && j < |os| && t < |os| && t != j
    ensures os[t] != os[j]
  {
    if t < j { assert os[t] != os[j]; } else { assert os[j] != os[t]; }
  }

  /**
   * Removing the member at table position j and decrementing every order
   * above its own closes the gap: the rest is dense again.
   */
  lemma {:induction false} DenseRemove(os: seq<int>, j: nat)
    requires Dense(os) && j < |os|
    ensures Dense(ShiftAll(os[..j] + os[j + 1..], os[j] + 1, -1))
  {
    var n, o := |os|, os[j];
    var ns := ShiftAll(os[..j] + os[j + 1..], o + 1, -1);
    assert |ns| == n - 1;
    forall t | 0 <= t < n - 1
      ensures ns[t] == Bump(os[Skip(t, j)], o + 1, -1)
    {
      RemovedAt(os, j, t);
    }
    forall t | 0 <= t < n - 1
      ensures 0 <= ns[t] < n - 1
    {
      DenseOthers(os, j, Skip(t, j));
      ClosedRange(os[Skip(t, j)], o, n);
    }
    forall a, b | 0 <= a < b < n - 1
      ensures ns[a] != ns[b]
    {
      assert Skip(a, j) < Skip(b, j);
      assert os[Skip(a, j)] != os[Skip(b, j)];
    }
    forall k | 0 <= k < n - 1
      ensures k in ns
    {
      var x := ClosedOnto(k, o, n);
      assert x in os;
      var t :| 0 <= t < n && os[t] == x;
      assert t != j;
      var t' := if t < j then t else t - 1;
      assert Skip(t', j) == t;
      assert ns[t'] == k;
    }
  }

  /** The positions of bystanders of a move stay within 0 .. n-1 and avoid the target. */
  lemma {:induction false} MovedRange(x: int, o: int, to: int, n: int)
    requires 0 <= x < n && 0 <= o < n && 0 <= to < n && x != o
    ensures 0 <= Moved(x, o, to) < n && Moved(x, o, to) != to
  {
  }

  /** Every position but the target is where some bystander of the move lands. */
  lemma {:induction false} MovedOnto(y: int, o: int, to: int, n: int) returns (x: int)
    requires 0 <= y < n && 0 <= o < n && 0 <= to < n && y != to
    ensures 0 <= x < n && x != o && Moved(x, o, to) == y
  {
    var y1 := if y > to then y - 1 else y;
    x := if y1 >= o then y1 + 1 else y1;
  }

  /**
   * Moving the member at table position j to position `to`: close its gap,
   * open the target slot, place it there. The result is dense, the member
   * sits at `to`, and every other member keeps its relative order.
   */
  lemma {:induction false} DenseMove(os: seq<int>, j: nat, to: int)
    requires Dense(os) && j < |os| && 0 <= to < |os|
    ensures var ns := ShiftAll(ShiftAll(os, os[j] + 1, -1), to, 1)[j := to];
      && Dense(ns)
      && ns[j] == to
      && (forall a :: 0 <= a < |os| && a != j ==> ns[a] == Moved(os[a], os[j], to))
      && (forall a, b :: 0 <= a < |os| && 0 <= b < |os| && a != j && b != j ==>
            (os[a] < os[b] <==> ns[a] < ns[b]))
  {
    var n, o := |os|, os[j];
    var ns := ShiftAll(ShiftAll(os, o + 1, -1), to, 1)[j := to];
    forall a | 0 <= a < n && a != j
      ensures ns[a] == Moved(os[a], o, to)
      ensures os[a] != o
    {
      if a < j { assert os[a] != os[j]; } else { assert os[j] != os[a]; }
    }
    forall a | 0 <= a < n && a != j
      ensures 0 <= ns[a] < n && ns[a] != to
    {
      MovedRange(os[a], o, to, n);
    }
    forall a, b | 0 <= a < n && 0 <= b < n && a != j && b != j
      ensures os[a] < os[b] <==> ns[a] < ns[b]
    {
      MovedMonotone(os[a], os[b], o, to);
    }
    forall a, b | 0 <= a < b < n
      ensures ns[a] != ns[b]
    {
      if a != j && b != j {
        assert os[a] != os[b];
        MovedMonotone(os[a], os[b], o, to);
        MovedMonotone(os[b], os[a], o, to);
      }
    }
    forall y | 0 <= y < n
      ensures y in ns
    {
      if y == to {
        assert ns[j] == y;
      } else {
        var x := MovedOnto(y, o, to, n);
        assert x in os;
        var t :| 0 <= t < n && os[t] == x;
        assert ns[t] == y;
      }
    }
  }

  /** Bystanders of a move keep their relative order. */
  lemma {:induction false} MovedMonotone(x: int, y: int, from: int, to: int)
    requires x != from && y != from
    ensures x < y <==> Moved(x, from, to) < Moved(y, from, to)
  {
  }

  /** The -1 of a cleared member never raises the running maximum. */
  lemma {:induction false} MaxOrderSkipsCleared(a: seq<int>, b: seq<int>)
    ensures MaxOrder(a + [-1] + b) == MaxOrder(a + b)
  {
    var m1, m2 := MaxOrder(a + [-1] + b), MaxOrder(a + b);
    forall i | 0 <= i < |a + b|
      ensures (a + b)[i] <= m1
    {
      var i' := if i < |a| then i else i + 1;
      assert (a + [-1] + b)[i'] == (a + b)[i];
    }
    if m2 != -1 {
      var t :| 0 <= t < |a + b| && (a + b)[t] == m2;
    }
    if m1 != -1 {
      var t :| 0 <= t < |a + [-1] + b| && (a + [-1] + b)[t] == m1;
      assert t != |a|;
      var t' := if t < |a| then t else t - 1;
      assert (a + b)[t'] == m1;
    }
  }

  /**
   * A member whose order was cleared to -1 and then given the next free
   * order of a dense scope fills the slot just past the others.
   */
  lemma {:induction false} DenseFill(a: seq<int>, b: seq<int>, c: seq<int>)
    requires a + b == c && Dense(c)
    ensures NextOrder(a + [-1] + b) == |a| + |b|
    ensures Dense(a + [|a| + |b|] + b)
  {
    assert |c| == |a| + |b| && c[..|a|] == a && c[|a|..] == b;
    assert NextOrder(a + [-1] + b) == |a| + |b| by {
      MaxOrderSkipsCleared(a, b);
      DenseNextOrder(c);
    }
    DenseInsert(c, |a|);
    DenseSame(c[..|a|] + [|c|] + c[|a|..], a + [|a| + |b|] + b);
  }

  /**
   * Closing the gap of the member at j and then placing it at the next free
   * order of the others puts it at the tail, keeping the scope dense.
   */
  lemma {:induction false} DenseRemoveFill(os: seq<int>, j: nat, a: seq<int>, b: seq<int>)
    requires Dense(os) && j < |os|
    requires a + b == ShiftAll(os[..j] + os[j + 1..], os[j] + 1, -1)
    ensures NextOrder(a + [-1] + b) == |os| - 1
    ensures Dense(a + [|os| - 1] + b)
  {
    var c := ShiftAll(os[..j] + os[j + 1..], os[j] + 1, -1);
    DenseRemove(os, j);
    assert |c| == |os| - 1;
    DenseFill(a, b, c);
  }
}
