/**
 * Switching a dashboard to another structure: `readColumns` lists the old
 * columns, and `changeStructure` puts a copy of the structure's rows on the
 * model and runs fill passes until every old column has been consumed.
 */
module Restructure {
  import opened LayoutTree
  import opened Structures
  import opened Migration

  // ---------------------------------------------------------------------------
  // readColumns

  /** The array `readColumns` pushes the columns it finds onto. */
  class ColumnArray {
    var items: seq<Column>

    constructor ()
      ensures items == []
    {
      items := [];
    }
  }

  /**
   * `readColumns(root, columns)`: push every column below `root` onto
   * `columns` (a fresh array when none is given), each column before the
   * columns nested in it, and return that array.
   */
  method ReadColumns(root: Nested, columns: ColumnArray?) returns (result: ColumnArray)
    requires ForestRows(RowsOf(root))
    modifies columns
    ensures columns != null ==> result == columns && result.items == old(columns.items) + PreorderNested(root)
    ensures columns == null ==> fresh(result) && result.items == PreorderNested(root)
  {
    if columns == null {
      result := new ColumnArray();
    } else {
      result := columns;
    }
    // forEach over an undefined or null `rows` visits nothing
    ReadRows(RowsOf(root), result);
  }

  /**
   * The body of `readColumns` once it holds an array, row by row. The
   * recursive call `readColumns(col, columns)` always passes the array, so it
   * is this method applied to the column's own rows.
   */
  method ReadRows(rows: seq<Row>, acc: ColumnArray)
    requires ForestRows(rows)
    modifies acc
    ensures acc.items == old(acc.items) + PreorderRows(rows)
    decreases BoundRows(rows), 1
  {
    ghost var start := acc.items;
    BoundRowsAbove(rows);
    for i := 0 to |rows|
      invariant acc.items == start + PreorderRows(rows[..i])
    {
      assert rows[..i + 1][..i] == rows[..i];
      BoundBelow(rows[i].columns, BoundRows(rows));
      ReadRow(rows[i].columns, acc);
      ConcatAssoc(start, PreorderRows(rows[..i]), PreorderColumns(rows[i].columns));
    }
    assert rows[..|rows|] == rows;
  }

  /** The callback over one row's columns: push the column, then read the rows nested in it. */
  method ReadRow(cs: seq<Column>, acc: ColumnArray)
    requires ForestColumns(cs)
    modifies acc
    ensures acc.items == old(acc.items) + PreorderColumns(cs)
    decreases Bound(cs), 0
  {
    ghost var start := acc.items;
    BoundAbove(cs);
    for j := 0 to |cs|
      invariant acc.items == start + PreorderColumns(cs[..j])
    {
      var col := cs[j];
      assert cs[..j + 1][..j] == cs[..j];
      assert Tree(col);
      ghost var before := acc.items;
      acc.items := acc.items + [col];
      BoundRowsBelow(RowsOf(col.nested), col.height);
      ReadRows(RowsOf(col.nested), acc);
      ConcatAssoc(before, [col], PreorderNested(col.nested));
      ConcatAssoc(start, PreorderColumns(cs[..j]), PreorderColumn(col));
    }
    assert cs[..|cs|] == cs;
  }

  // ---------------------------------------------------------------------------
  // The passes of changeStructure, as functions of the widget lists

  /** The lists of the walk `s` after fill passes starting with the counter at `k`,
      repeated while an old column is left; each pass continues from the counter
      the previous one left. */
  function Migrated(s: seq<Column>, lists: Lists, olds: Lists, k: nat): (r: Lists)
    requires |lists| == |s|
    requires |Leaves(s)| > 0 || |olds| <= k
    ensures |r| == |s|
    decreases |olds| - k
  {
    if |olds| <= k then lists
    else Migrated(s, FillAll(lists, Receipts(s, k, olds)), olds, Advance(k, |Leaves(s)|, |olds|))
  }

  /** What leaf number `l` of `n` receives from the passes starting at counter `k`:
      old column `k + l`, then `k + n + l`, and so on while they exist. */
  function RoundRobin(olds: Lists, l: nat, n: nat, k: nat): seq<Widget>
    requires n > 0
    decreases |olds| - k
  {
    if |olds| <= k + l then [] else Drained(Val(olds[k + l])) + RoundRobin(olds, l, n, k + n)
  }

  /** The moved widgets of the old columns from `j` on whose position is `l` modulo `n`, in order. */
  function Picked(olds: Lists, l: nat, n: nat, j: nat): seq<Widget>
    requires n > 0
    decreases |olds| - j
  {
    if |olds| <= j then [] else (if j % n == l then Drained(Val(olds[j])) else []) + Picked(olds, l, n, j + 1)
  }

  /** Every old column's list as `copyWidgets` leaves it. */
  function Rests(olds: Lists): (r: Lists)
    ensures |r| == |olds|
  {
    if olds == [] then [] else Rests(olds[..|olds| - 1]) + [Rest(olds[|olds| - 1])]
  }

  /** The position of `s[t]` among the leaves of `s`. */
  function LeafIndex(s: seq<Column>, t: nat): nat
    requires t <= |s|
  {
    |Leaves(s[..t])|
  }

  lemma {:induction false} ReceiptsAt(s: seq<Column>, k: nat, olds: Lists, t: nat)
    requires t < |s|
    ensures Receipts(s, k, olds)[t] == Receive(s[t], Advance(k, LeafIndex(s, t), |olds|), olds)
    decreases |s|
  {
    var n := |s| - 1;
    var last := Receive(s[n], Advance(k, |Leaves(s[..n])|, |olds|), olds);
    assert Receipts(s, k, olds) == Receipts(s[..n], k, olds) + [last];
    if t < n {
      ReceiptsAt(s[..n], k, olds, t);
      assert s[..n][..t] == s[..t] && s[..n][t] == s[t];
      assert Receipts(s, k, olds)[t] == Receipts(s[..n], k, olds)[t];
    } else {
      assert Receipts(s, k, olds)[t] == last;
    }
  }

  lemma {:induction false} FillAllAt(before: Lists, extra: seq<seq<Widget>>, t: nat)
    requires |extra| == |before| && t < |before|
    ensures FillAll(before, extra)[t] == Filled(before[t], extra[t])
    decreases |before|
  {
    var n := |before| - 1;
    if t < n {
      FillAllAt(before[..n], extra[..n], t);
    }
  }

  /** A leaf's position among the leaves is below their number. */
  lemma LeafIndexBelow(s: seq<Column>, t: nat)
    requires t < |s| && IsLeaf(s[t])
    ensures LeafIndex(s, t) < |Leaves(s)|
  {
    assert s[..t + 1][..t] == s[..t];
    assert s == s[..t + 1] + s[t + 1..];
    LeavesAppend(s[..t + 1], s[t + 1..]);
  }

  /** What a leaf at position `l` among the leaves receives in the pass starting at counter `k`. */
  lemma ReceiveLeaf(c: Column, k: nat, l: nat, olds: Lists)
    requires IsLeaf(c) && k < |olds|
    ensures Receive(c, Advance(k, l, |olds|), olds) == if k + l < |olds| then Drained(Val(olds[k + l])) else []
  {
  }

  /** One pass's share of a leaf, followed by the shares of the later passes. */
  lemma RoundRobinStep(olds: Lists, l: nat, n: nat, k: nat)
    requires l < n && k < |olds|
    ensures (if k + l < |olds| then Drained(Val(olds[k + l])) else [])
            + (if Advance(k, n, |olds|) < |olds| then RoundRobin(olds, l, n, Advance(k, n, |olds|)) else [])
            == RoundRobin(olds, l, n, k)
  {
    if k + l < |olds| && k + n >= |olds| {
      assert RoundRobin(olds, l, n, k + n) == [];
    }
  }

  lemma WidgetsAssoc(a: seq<Widget>, b: seq<Widget>, c: seq<Widget>)
    ensures (a + b) + c == a + (b + c)
  {
  }

  /**
   * Column `t` of the walk after the passes: a widget array holding what it
   * held, followed, for a leaf, by what it receives round robin.
   */
  lemma {:induction false} MigratedAt(s: seq<Column>, lists: Lists, olds: Lists, k: nat, t: nat)
    requires |lists| == |s| && |Leaves(s)| > 0 && k < |olds| && t < |s|
    ensures Migrated(s, lists, olds, k)[t] ==
            Some(Val(lists[t]) + if IsLeaf(s[t]) then RoundRobin(olds, LeafIndex(s, t), |Leaves(s)|, k) else [])
    decreases |olds| - k
  {
    var n := |Leaves(s)|;
    var next := Advance(k, n, |olds|);
    var filled := FillAll(lists, Receipts(s, k, olds));
    FillAllAt(lists, Receipts(s, k, olds), t);
    ReceiptsAt(s, k, olds, t);
    var l := LeafIndex(s, t);
    var got := if IsLeaf(s[t]) && k + l < |olds| then Drained(Val(olds[k + l])) else [];
    var later := if IsLeaf(s[t]) && next < |olds| then RoundRobin(olds, l, n, next) else [];
    var share := if IsLeaf(s[t]) then RoundRobin(olds, l, n, k) else [];
    if IsLeaf(s[t]) {
      ReceiveLeaf(s[t], k, l, olds);
      LeafIndexBelow(s, t);
      RoundRobinStep(olds, l, n, k);
      assert got + later == share;
    } else {
      assert got + later == share;
    }
    assert filled[t] == Some(Val(lists[t]) + got);
    assert Migrated(s, lists, olds, k) == Migrated(s, filled, olds, next);
    if next < |olds| {
      MigratedAt(s, filled, olds, next, t);
    } else {
      assert later == [];
      assert (Val(lists[t]) + got) + [] == Val(lists[t]) + got;
    }
    WidgetsAssoc(Val(lists[t]), got, later);
  }

  lemma MulBelow(n: int, m: int)
    requires n > 0 && m >= 1
    ensures n * m >= n
  {
  }

  /** The remainder is determined by any quotient-remainder decomposition. */
  lemma ModUnique(x: int, n: int, q: int, r: int)
    requires n > 0 && 0 <= r < n && x == n * q + r
    ensures x % n == r
  {
    var q', r' := x / n, x % n;
    assert x == n * q' + r';
    assert n * (q - q') == r' - r;
    if q - q' >= 1 {
      MulBelow(n, q - q');
    } else if q' - q >= 1 {
      MulBelow(n, q' - q);
    }
  }

  lemma ModShift(k: nat, n: nat, i: nat)
    requires n > 0 && k % n == 0 && i < n
    ensures (k + i) % n == i
  {
    ModUnique(k + i, n, k / n, i);
  }

  lemma ModNext(k: nat, n: nat)
    requires n > 0 && k % n == 0
    ensures (k + n) % n == 0
  {
    ModUnique(k + n, n, k / n + 1, 0);
  }

  /** Within one round of `n` old columns starting at a multiple of `n`, only the `l`-th is picked. */
  lemma {:induction false} PickedWindow(olds: Lists, l: nat, n: nat, k: nat, i: nat)
    requires l < n && k % n == 0 && i <= n
    ensures Picked(olds, l, n, k + i) ==
            (if i <= l && k + l < |olds| then Drained(Val(olds[k + l])) else []) + Picked(olds, l, n, k + n)
    decreases n - i
  {
    if i < n {
      PickedWindow(olds, l, n, k, i + 1);
      var rest := Picked(olds, l, n, k + n);
      var here := if i <= l && k + l < |olds| then Drained(Val(olds[k + l])) else [];
      var after := if i + 1 <= l && k + l < |olds| then Drained(Val(olds[k + l])) else [];
      if k + i < |olds| {
        ModShift(k, n, i);
        var pick := if i == l then Drained(Val(olds[k + i])) else [];
        assert pick + after == here;
        WidgetsAssoc(pick, after, rest);
      } else {
        assert here == [] && after == [];
      }
    } else {
      assert [] + Picked(olds, l, n, k + n) == Picked(olds, l, n, k + n);
    }
  }

  /** The passes hand leaf `l` exactly the old columns whose position is `l` modulo `n`, in order. */
  lemma {:induction false} RoundRobinPicked(olds: Lists, l: nat, n: nat, k: nat)
    requires l < n && k % n == 0
    ensures RoundRobin(olds, l, n, k) == Picked(olds, l, n, k)
    decreases |olds| - k
  {
    if k < |olds| {
      PickedWindow(olds, l, n, k, 0);
      ModNext(k, n);
      RoundRobinPicked(olds, l, n, k + n);
      if |olds| <= k + l {
        assert Picked(olds, l, n, k + n) == [];
      } else {
        assert RoundRobin(olds, l, n, k) == Drained(Val(olds[k + l])) + RoundRobin(olds, l, n, k + n);
      }
    }
  }

  /** Once the counter has passed every old column, each has been drained once. */
  lemma {:induction false} DrainAll(olds: Lists, next: nat)
    requires |olds| <= next
    ensures Drain(olds, 0, next) == Rests(olds)
  {
    if olds != [] {
      DrainAll(olds[..|olds| - 1], next);
    }
  }

  /**
   * One pass of `fillStructure` leaves every column of the walk with a widget
   * array that starts with what the column held; a column that is not a leaf
   * receives nothing.
   */
  lemma PassFillsEveryColumn(s: seq<Column>, before: Lists, k: nat, olds: Lists, t: nat)
    requires |before| == |s| && t < |s|
    ensures FillAll(before, Receipts(s, k, olds))[t].Some?
    ensures Val(before[t]) <= FillAll(before, Receipts(s, k, olds))[t].value
    ensures !IsLeaf(s[t]) ==> FillAll(before, Receipts(s, k, olds))[t] == Some(Val(before[t]))
  {
    FillAllAt(before, Receipts(s, k, olds), t);
    ReceiptsAt(s, k, olds, t);
    if !IsLeaf(s[t]) {
      assert Val(before[t]) + [] == Val(before[t]);
    }
  }

  /**
   * The outcome of `changeStructure` for column `t` of the new walk: with no
   * old columns nothing changes; otherwise the column holds its own widgets,
   * followed, for a leaf, by the moved widgets of every old column whose
   * position is the leaf's number modulo the number of leaves, in order.
   */
  lemma MigratedShare(s: seq<Column>, lists: Lists, olds: Lists, t: nat)
    requires |lists| == |s| && t < |s| && (|Leaves(s)| > 0 || olds == [])
    ensures olds == [] ==> Migrated(s, lists, olds, 0)[t] == lists[t]
    ensures olds != [] ==>
              Migrated(s, lists, olds, 0)[t] ==
              Some(Val(lists[t]) + if IsLeaf(s[t]) then Picked(olds, LeafIndex(s, t), |Leaves(s)|, 0) else [])
  {
    if olds != [] {
      MigratedAt(s, lists, olds, 0, t);
      if IsLeaf(s[t]) {
        LeafIndexBelow(s, t);
        RoundRobinPicked(olds, LeafIndex(s, t), |Leaves(s)|, 0);
      }
    }
  }

  /** Every entry of the lists is a widget object: no falsy entry stops a copy. */
  predicate OnlyWidgetObjects(ls: Lists)
  {
    forall k | 0 <= k < |ls| :: forall w | w in Val(ls[k]) :: Truthy(w)
  }

  /** Old columns holding only widget objects end with an empty array, or stay undefined. */
  lemma {:induction false} RestsEmpty(olds: Lists)
    requires OnlyWidgetObjects(olds)
    ensures forall k | 0 <= k < |olds| :: Rests(olds)[k] == if olds[k].Some? then Some([]) else None
  {
    if olds != [] {
      var n := |olds| - 1;
      RestsEmpty(olds[..n]);
      DrainAllTruthy(Val(olds[n]));
      assert Rests(olds) == Rests(olds[..n]) + [Rest(olds[n])];
    }
  }

  // ---------------------------------------------------------------------------
  // Conservation of widgets across the passes

  /** Every widget of the lists, list after list. */
  function Flat(ls: Lists): seq<Widget>
  {
    if ls == [] then [] else Flat(ls[..|ls| - 1]) + Val(ls[|ls| - 1])
  }

  /** What a pass hands out, joined in walk order. */
  function Joined(xs: seq<seq<Widget>>): seq<Widget>
  {
    if xs == [] then [] else Joined(xs[..|xs| - 1]) + xs[|xs| - 1]
  }

  /** The widgets `copyWidgets` moves out of old columns `k` to `m - 1`, in order. */
  function Moved(olds: Lists, k: nat, m: nat): seq<Widget>
    requires m <= |olds|
  {
    if m <= k then [] else Moved(olds, k, m - 1) + Drained(Val(olds[m - 1]))
  }

  lemma {:induction false} MovedSplit(olds: Lists, k: nat, k1: nat, m: nat)
    requires k <= k1 <= m <= |olds|
    ensures Moved(olds, k, k1) + Moved(olds, k1, m) == Moved(olds, k, m)
    decreases m
  {
    if k1 < m {
      var last := Drained(Val(olds[m - 1]));
      MovedSplit(olds, k, k1, m - 1);
      assert Moved(olds, k1, m) == Moved(olds, k1, m - 1) + last;
      assert Moved(olds, k, m) == Moved(olds, k, m - 1) + last;
      WidgetsAssoc(Moved(olds, k, k1), Moved(olds, k1, m - 1), last);
    } else {
      assert Moved(olds, k1, m) == [];
    }
  }

  /** Filling adds exactly the received widgets to the walk's lists. */
  lemma {:induction false} FlatFillAll(before: Lists, extra: seq<seq<Widget>>)
    requires |extra| == |before|
    ensures multiset(Flat(FillAll(before, extra))) == multiset(Flat(before)) + multiset(Joined(extra))
    decreases |before|
  {
    if before != [] {
      var n := |before| - 1;
      var front := FillAll(before[..n], extra[..n]);
      var last := Filled(before[n], extra[n]);
      FlatFillAll(before[..n], extra[..n]);
      assert FillAll(before, extra) == front + [last];
      assert (front + [last])[..n] == front && (front + [last])[n] == last;
      assert Flat(FillAll(before, extra)) == Flat(front) + (Val(before[n]) + extra[n]);
      assert Joined(extra) == Joined(extra[..n]) + extra[n];
      assert Flat(before) == Flat(before[..n]) + Val(before[n]);
    }
  }

  /** One pass hands out the moved widgets of the old columns its counter passes, in order. */
  lemma {:induction false} JoinedReceipts(s: seq<Column>, k: nat, olds: Lists)
    requires k <= |olds|
    ensures Joined(Receipts(s, k, olds)) == Moved(olds, k, Advance(k, |Leaves(s)|, |olds|))
    decreases |s|
  {
    if s != [] {
      var n := |s| - 1;
      var c := s[n];
      var m := |Leaves(s[..n])|;
      var a := Advance(k, m, |olds|);
      var got := Receive(c, a, olds);
      JoinedReceipts(s[..n], k, olds);
      assert Receipts(s, k, olds) == Receipts(s[..n], k, olds) + [got];
      assert (Receipts(s[..n], k, olds) + [got])[..n] == Receipts(s[..n], k, olds);
      assert Joined(Receipts(s, k, olds)) == Moved(olds, k, a) + got;
      if IsLeaf(c) && a < |olds| {
        assert |Leaves(s)| == m + 1;
        assert Advance(k, |Leaves(s)|, |olds|) == a + 1;
      } else {
        assert got == [] && Advance(k, |Leaves(s)|, |olds|) == a;
        assert Moved(olds, k, a) + [] == Moved(olds, k, a);
      }
    }
  }

  /**
   * The passes from counter `k` add to the walk exactly the widgets they move
   * out of the old columns from `k` on: none is lost or duplicated.
   */
  lemma {:induction false} MigratedConserves(s: seq<Column>, lists: Lists, olds: Lists, k: nat)
    requires |lists| == |s| && k <= |olds| && (|Leaves(s)| > 0 || |olds| <= k)
    ensures multiset(Flat(Migrated(s, lists, olds, k))) == multiset(Flat(lists)) + multiset(Moved(olds, k, |olds|))
    decreases |olds| - k
  {
    if k < |olds| {
      var received := Receipts(s, k, olds);
      var next := Advance(k, |Leaves(s)|, |olds|);
      FlatFillAll(lists, received);
      JoinedReceipts(s, k, olds);
      MigratedConserves(s, FillAll(lists, received), olds, next);
      MovedSplit(olds, k, next, |olds|);
    }
  }

  /** Old columns holding only widget objects are moved whole. */
  lemma {:induction false} MovedAllTruthy(olds: Lists, m: nat)
    requires m <= |olds|
    requires OnlyWidgetObjects(olds)
    ensures Moved(olds, 0, m) == Flat(olds[..m])
    decreases m
  {
    if m > 0 {
      var front := olds[..m];
      MovedAllTruthy(olds, m - 1);
      assert forall w | w in Val(olds[m - 1]) :: Truthy(w);
      DrainAllTruthy(Val(olds[m - 1]));
      assert front[..m - 1] == olds[..m - 1] && front[m - 1] == olds[m - 1];
      assert Flat(front) == Flat(front[..m - 1]) + Val(front[m - 1]);
      assert Moved(olds, 0, m) == Moved(olds, 0, m - 1) + Drained(Val(olds[m - 1]));
    }
  }

  lemma {:induction false} FlatEmpty(ls: Lists)
    requires forall k | 0 <= k < |ls| :: Val(ls[k]) == []
    ensures Flat(ls) == []
  {
    if ls != [] {
      FlatEmpty(ls[..|ls| - 1]);
    }
  }

  /**
   * `changeStructure` conserves widgets: when the old columns hold only
   * widget objects, the new walk ends with its own widgets and every old
   * widget, as a multiset, and the old columns end empty.
   */
  lemma WidgetsConserved(s: seq<Column>, lists: Lists, olds: Lists)
    requires |lists| == |s| && (|Leaves(s)| > 0 || olds == [])
    requires OnlyWidgetObjects(olds)
    ensures multiset(Flat(Migrated(s, lists, olds, 0))) == multiset(Flat(lists)) + multiset(Flat(olds))
    ensures Flat(Rests(olds)) == []
  {
    MigratedConserves(s, lists, olds, 0);
    MovedAllTruthy(olds, |olds|);
    assert olds[..|olds|] == olds;
    RestsEmpty(olds);
    FlatEmpty(Rests(olds));
  }

  /** The widget lists of a structure's columns, in pre-order. */
  function ValueLists(vs: seq<ColumnValue>): (ws: Lists)
    ensures |ws| == |vs|
  {
    if vs == [] then [] else ValueLists(vs[..|vs| - 1]) + [vs[|vs| - 1].widgets]
  }

  lemma {:induction false} CopiedLists(objs: seq<Column>, vals: seq<ColumnValue>)
    requires Copied(objs, vals)
    ensures WidgetLists(objs) == ValueLists(vals)
    decreases |objs|
  {
    if objs != [] {
      var k := |objs| - 1;
      assert Copied(objs[..k], vals[..k]) by {
        forall i | 0 <= i < k
          ensures objs[..k][i].widgets == vals[..k][i].widgets && SameKind(objs[..k][i].nested, vals[..k][i].nested)
        {
          assert objs[..k][i] == objs[i] && vals[..k][i] == vals[i];
        }
      }
      CopiedLists(objs[..k], vals[..k]);
    }
  }

  /** Every column of an allocated tree is allocated. */
  lemma PreorderColumnAllocated(c: Column)
    requires Tree(c) && allocated(c)
    ensures forall d | d in PreorderColumn(c) :: allocated(d)
    decreases c.height + 1, 0
  {
    BoundRowsBelow(RowsOf(c.nested), c.height);
    PreorderRowsAllocated(RowsOf(c.nested));
  }

  lemma PreorderRowsAllocated(rows: seq<Row>)
    requires ForestRows(rows) && allocated(rows)
    ensures forall d | d in PreorderRows(rows) :: allocated(d)
    decreases BoundRows(rows), 2, |rows|
  {
    if rows != [] {
      PreorderRowsAllocated(rows[..|rows| - 1]);
      BoundRowsAbove(rows);
      BoundBelow(rows[|rows| - 1].columns, BoundRows(rows));
      PreorderColumnsAllocated(rows[|rows| - 1].columns);
    }
  }

  lemma PreorderColumnsAllocated(cs: seq<Column>)
    requires ForestColumns(cs) && allocated(cs)
    ensures forall d | d in PreorderColumns(cs) :: allocated(d)
    decreases Bound(cs), 1, |cs|
  {
    if cs != [] {
      PreorderColumnsAllocated(cs[..|cs| - 1]);
      BoundAbove(cs);
      PreorderColumnAllocated(cs[|cs| - 1]);
    }
  }

  /** One fill pass of `changeStructure`, started with the counter at `k`, in terms of the lists. */
  lemma PassStep(s: seq<Column>, olds: Lists, before: Lists, drained: Lists, after: Lists, now: Lists, k: nat, next: nat)
    requires |Leaves(s)| > 0 && k < |olds| && |before| == |s|
    requires drained == Drain(olds, 0, k)
    requires after == FillAll(before, Receipts(s, k, drained))
    requires now == Drain(drained, k, next) && next == Advance(k, |Leaves(s)|, |olds|)
    ensures k < next <= |olds|
    ensures now == Drain(olds, 0, next)
    ensures Migrated(s, before, olds, k) == Migrated(s, after, olds, next)
  {
    forall q | k <= q < |olds|
      ensures drained[q] == olds[q]
    {
      DrainAt(olds, 0, k);
    }
    ReceiptsAgree(s, k, olds, drained);
    DrainCompose(olds, 0, k, next);
  }

  /**
   * The `while` loop of `changeStructure`: fill passes over the new tree
   * below `rows`, each continuing from the counter the previous one left,
   * until the counter has passed every old column.
   */
  method FillPasses(rows: Nested, cols: seq<Column>) returns (counter: nat)
    requires ForestRows(RowsOf(rows)) && Distinct(PreorderNested(rows)) && Distinct(cols)
    requires forall c | c in cols :: c !in PreorderNested(rows)
    requires |Leaves(PreorderNested(rows))| > 0 || cols == []
    modifies Elems(PreorderNested(rows)), Elems(cols)
    ensures counter == |cols|
    ensures WidgetLists(cols) == Rests(old(WidgetLists(cols)))
    ensures WidgetLists(PreorderNested(rows)) ==
            Migrated(PreorderNested(rows), old(WidgetLists(PreorderNested(rows))), old(WidgetLists(cols)), 0)
  {
    ghost var s := PreorderNested(rows);
    ghost var olds := WidgetLists(cols);
    ghost var start := WidgetLists(s);
    counter := 0;
    DrainNothing(olds, 0);
    while counter < |cols|
      invariant counter <= |cols|
      invariant |Leaves(s)| > 0 || |olds| <= counter
      invariant WidgetLists(cols) == Drain(olds, 0, counter)
      invariant Migrated(s, WidgetLists(s), olds, counter) == Migrated(s, start, olds, 0)
      decreases |cols| - counter
    {
      ghost var before := WidgetLists(s);
      ghost var drained := WidgetLists(cols);
      ghost var k := counter;
      counter := FillStructure(rows, cols, counter);
      PassStep(s, olds, before, drained, WidgetLists(s), WidgetLists(cols), k, counter);
    }
    DrainAll(olds, counter);
  }

  // ---------------------------------------------------------------------------
  // changeStructure

  /**
   * The first half of `changeStructure(model, structure)`: list the old
   * columns, then give the model a fresh copy of the structure's rows. The old
   * columns are untouched, and none of them is part of the new tree.
   */
  method ReplaceRows(model: Model, structure: Structure) returns (cols: seq<Column>)
    requires ForestRows(RowsOf(model.rows)) && Distinct(PreorderNested(model.rows))
    modifies model
    ensures cols == old(PreorderNested(model.rows))
    ensures ForestRows(RowsOf(model.rows)) && Distinct(PreorderNested(model.rows))
    ensures SkeletonNested(model.rows) == StripNested(structure.rows)
    ensures forall c | c in PreorderNested(model.rows) :: fresh(c)
    ensures forall c | c in cols :: c !in PreorderNested(model.rows)
    ensures |Leaves(PreorderNested(model.rows))| == ValueLeafCount(ValuePreorderNested(structure.rows))
    ensures WidgetLists(PreorderNested(model.rows)) == ValueLists(ValuePreorderNested(structure.rows))
    ensures model.title == old(model.title) && model.titleTemplateUrl == old(model.titleTemplateUrl)
    ensures model.structure == old(model.structure)
  {
    PreorderRowsAllocated(RowsOf(model.rows));
    var columns := ReadColumns(model.rows, null);
    cols := columns.items;
    var rows := CopyNested(structure.rows);
    model.rows := rows;
    CopiedLeafCount(PreorderNested(rows), ValuePreorderNested(structure.rows));
    CopiedLists(PreorderNested(rows), ValuePreorderNested(structure.rows));
  }

  /**
   * `changeStructure(model, structure)`: list the old columns, give the model
   * a fresh copy of the structure's rows, then run fill passes over the new
   * tree, each continuing from the counter the previous one left, until the
   * counter has passed every old column.
   */
  method ChangeStructure(model: Model, structure: Structure)
    requires ForestRows(RowsOf(model.rows)) && Distinct(PreorderNested(model.rows))
    requires ValueLeafCount(ValuePreorderNested(structure.rows)) > 0 || PreorderNested(model.rows) == []
    modifies model, Elems(PreorderNested(model.rows))
    ensures ForestRows(RowsOf(model.rows)) && Distinct(PreorderNested(model.rows))
    ensures SkeletonNested(model.rows) == StripNested(structure.rows)
    ensures forall c | c in PreorderNested(model.rows) :: fresh(c)
    ensures model.title == old(model.title) && model.titleTemplateUrl == old(model.titleTemplateUrl)
    ensures model.structure == old(model.structure)
    ensures |Leaves(PreorderNested(model.rows))| > 0 || old(PreorderNested(model.rows)) == []
    ensures |PreorderNested(model.rows)| == |ValuePreorderNested(structure.rows)|
    ensures WidgetLists(old(PreorderNested(model.rows))) == Rests(old(WidgetLists(PreorderNested(model.rows))))
    ensures WidgetLists(PreorderNested(model.rows)) ==
            Migrated(PreorderNested(model.rows), ValueLists(ValuePreorderNested(structure.rows)),
                     old(WidgetLists(PreorderNested(model.rows))), 0)
    ensures OnlyWidgetObjects(old(WidgetLists(PreorderNested(model.rows)))) ==>
              multiset(Flat(WidgetLists(PreorderNested(model.rows)))) ==
              multiset(Flat(ValueLists(ValuePreorderNested(structure.rows)))) +
              multiset(Flat(old(WidgetLists(PreorderNested(model.rows)))))
  {
    ghost var olds := WidgetLists(PreorderNested(model.rows));
    var cols := ReplaceRows(model, structure);
    assert WidgetLists(cols) == olds;
    var rows := model.rows;
    var counter := FillPasses(rows, cols);
    assert WidgetLists(cols) == Rests(olds);
    ghost var lists := ValueLists(ValuePreorderNested(structure.rows));
    ghost var news := WidgetLists(PreorderNested(rows));
    assert news == Migrated(PreorderNested(rows), lists, olds, 0);
    if OnlyWidgetObjects(olds) {
      WidgetsConserved(PreorderNested(rows), lists, olds);
      assert multiset(Flat(news)) == multiset(Flat(lists)) + multiset(Flat(olds));
    }
  }
}
