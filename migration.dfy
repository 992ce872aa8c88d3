/**
 * Layout migration: when a dashboard switches to another structure, the
 * columns of the old layout are listed, the model takes a fresh copy of the
 * structure's rows, and the old columns are drained, in order, into the leaf
 * columns of the new layout, wrapping around the leaves until every old
 * column has been consumed.
 */
module Migration {
  import opened LayoutTree
  import opened Structures

  /** The widget lists of a sequence of columns, position by position. */
  type Lists = seq<Option<seq<Widget>>>

  function WidgetLists(s: seq<Column>): (ws: Lists)
    reads s
    ensures |ws| == |s|
  {
    if s == [] then [] else WidgetLists(s[..|s| - 1]) + [s[|s| - 1].widgets]
  }

  lemma {:induction false} WidgetListsAt(s: seq<Column>)
    ensures forall i | 0 <= i < |s| :: WidgetLists(s)[i] == s[i].widgets
  {
    if s != [] {
      WidgetListsAt(s[..|s| - 1]);
    }
  }

  lemma {:induction false} WidgetListsAppend(a: seq<Column>, b: seq<Column>)
    ensures WidgetLists(a + b) == WidgetLists(a) + WidgetLists(b)
    decreases |b|
  {
    if b == [] {
      assert a + b == a;
    } else {
      var b' := b[..|b| - 1];
      assert (a + b)[..|a + b| - 1] == a + b';
      WidgetListsAppend(a, b');
    }
  }

  // ---------------------------------------------------------------------------
  // copyWidgets

  /** The entries `copyWidgets` moves: the list up to, not including, its first falsy entry. */
  function Drained(s: seq<Widget>): seq<Widget>
  {
    if s == [] || !Truthy(s[0]) then [] else [s[0]] + Drained(s[1..])
  }

  /** What `copyWidgets` leaves in the source: the entries after the first falsy
      one, which is itself shifted off and dropped; nothing when all are truthy. */
  function Left(s: seq<Widget>): seq<Widget>
  {
    if s == [] then [] else if !Truthy(s[0]) then s[1..] else Left(s[1..])
  }

  /** A source list after `copyWidgets`: an undefined list stays undefined. */
  function Rest(w: Option<seq<Widget>>): Option<seq<Widget>>
  {
    if w.Some? then Some(Left(w.value)) else None
  }

  /** Draining splits a list at its first falsy entry: what is moved, that entry, and what stays. */
  lemma {:induction false} DrainSplit(s: seq<Widget>)
    ensures forall w | w in Drained(s) :: Truthy(w)
    ensures |Drained(s)| == |s| ==> s == Drained(s) && Left(s) == []
    ensures |Drained(s)| < |s| ==> s == Drained(s) + [s[|Drained(s)|]] + Left(s) && !Truthy(s[|Drained(s)|])
  {
    if s != [] && Truthy(s[0]) {
      DrainSplit(s[1..]);
      assert s == [s[0]] + s[1..];
    }
  }

  /** A list of widget objects is moved whole and leaves its source empty. */
  lemma {:induction false} DrainAllTruthy(s: seq<Widget>)
    requires forall w | w in s :: Truthy(w)
    ensures Drained(s) == s && Left(s) == []
  {
    if s != [] {
      DrainAllTruthy(s[1..]);
      assert s == [s[0]] + s[1..];
    }
  }

  /**
   * `copyWidgets(source, target)`: shift entries off the source and push them
   * onto the target until an entry (or the shift of an empty array) is falsy.
   */
  method CopyWidgets(source: Column, target: Column)
    requires source != target
    requires target.widgets.Some?
    modifies source, target
    ensures target.widgets == Some(old(target.widgets.value) + Drained(Val(old(source.widgets))))
    ensures source.widgets == Rest(old(source.widgets))
  {
    if source.widgets.Some? && |source.widgets.value| > 0 {
      ghost var moved := target.widgets.value + Drained(source.widgets.value);
      ghost var kept := Left(source.widgets.value);
      var w := source.widgets.value[0];
      source.widgets := Some(source.widgets.value[1..]);
      assert old(source.widgets.value) == [w] + source.widgets.value;
      while Truthy(w)
        invariant source.widgets.Some? && target.widgets.Some?
        invariant moved == target.widgets.value + Drained([w] + source.widgets.value)
        invariant kept == Left([w] + source.widgets.value)
        decreases |source.widgets.value| + (if Truthy(w) then 1 else 0)
      {
        assert ([w] + source.widgets.value)[1..] == source.widgets.value;
        target.widgets := Some(target.widgets.value + [w]);
        if |source.widgets.value| > 0 {
          var rest := source.widgets.value;
          w := rest[0];
          source.widgets := Some(rest[1..]);
          assert rest == [w] + source.widgets.value;
        } else {
          // shifting an empty array yields undefined
          w := Missing;
        }
      }
      assert ([w] + source.widgets.value)[0] == w;
      assert Drained([w] + source.widgets.value) == [];
      assert target.widgets.value == moved;
    } else {
      assert old(target.widgets.value) + Drained(Val(old(source.widgets))) == old(target.widgets.value);
    }
  }

  // ---------------------------------------------------------------------------
  // One pass of fillStructure, as functions of the widget lists

  /** The counter after a pass over `m` leaf columns that started at `k`, with `n` old columns:
      it advances once per leaf while an old column exists at the counter. */
  function Advance(k: nat, m: nat, n: nat): (r: nat)
    ensures k <= r <= k + m
    ensures k <= n ==> r <= n
    ensures r < n ==> r == k + m
    ensures k < n ==> (k < r <==> 0 < m)
  {
    if n <= k then k else if k + m < n then k + m else n
  }

  /** What column `c` receives when the pass reaches it with the counter at `q`:
      a leaf takes the leading widgets of old column `q`, if that column exists. */
  function Receive(c: Column, q: nat, olds: Lists): seq<Widget>
  {
    if IsLeaf(c) && q < |olds| then Drained(Val(olds[q])) else []
  }

  /** What each column of the walk `s` receives in a pass started at counter `k`,
      given the old columns' lists `olds`. */
  function Receipts(s: seq<Column>, k: nat, olds: Lists): (r: seq<seq<Widget>>)
    ensures |r| == |s|
  {
    if s == [] then []
    else Receipts(s[..|s| - 1], k, olds) + [Receive(s[|s| - 1], Advance(k, |Leaves(s[..|s| - 1])|, |olds|), olds)]
  }

  /** A column after `fillStructure` visits it: `widgets` made an array if it was
      undefined or null, then the received widgets appended. */
  function Filled(w: Option<seq<Widget>>, extra: seq<Widget>): Option<seq<Widget>>
  {
    Some(Val(w) + extra)
  }

  /** The lists `before` after the pass: each filled with what its column received. */
  function FillAll(before: Lists, extra: seq<seq<Widget>>): (after: Lists)
    requires |extra| == |before|
    ensures |after| == |before|
  {
    if before == [] then []
    else FillAll(before[..|before| - 1], extra[..|before| - 1]) + [Filled(before[|before| - 1], extra[|before| - 1])]
  }

  /** The old columns' lists after the counter went from `k` to `next`: those in between were drained. */
  function Drain(olds: Lists, k: nat, next: nat): (now: Lists)
    ensures |now| == |olds|
  {
    if olds == [] then []
    else Drain(olds[..|olds| - 1], k, next) + [if k <= |olds| - 1 < next then Rest(olds[|olds| - 1]) else olds[|olds| - 1]]
  }

  lemma AdvanceCompose(k: nat, a: nat, b: nat, n: nat)
    ensures Advance(Advance(k, a, n), b, n) == Advance(k, a + b, n)
    ensures k <= Advance(k, a, n)
  {
  }

  /** Old column `q` after the drain: emptied exactly when the counter passed over it. */
  lemma {:induction false} DrainAt(olds: Lists, k: nat, next: nat)
    ensures forall q | 0 <= q < |olds| :: Drain(olds, k, next)[q] == if k <= q < next then Rest(olds[q]) else olds[q]
  {
    if olds != [] {
      DrainAt(olds[..|olds| - 1], k, next);
    }
  }

  lemma DrainNothing(olds: Lists, k: nat)
    ensures Drain(olds, k, k) == olds
  {
    DrainAt(olds, k, k);
  }

  lemma DrainOne(olds: Lists, k: nat)
    requires k < |olds|
    ensures Drain(olds, k, k + 1) == olds[k := Rest(olds[k])]
  {
    DrainAt(olds, k, k + 1);
  }

  /** Two drains over consecutive counter ranges make one. */
  lemma DrainCompose(olds: Lists, k: nat, k1: nat, k2: nat)
    requires k <= k1 <= k2
    ensures Drain(Drain(olds, k, k1), k1, k2) == Drain(olds, k, k2)
  {
    DrainAt(olds, k, k1);
    DrainAt(Drain(olds, k, k1), k1, k2);
    DrainAt(olds, k, k2);
  }

  /** A pass that starts at `k` reads only old columns from `k` on. */
  lemma {:induction false} ReceiptsAgree(s: seq<Column>, k: nat, olds: Lists, mid: Lists)
    requires |mid| == |olds|
    requires forall q | k <= q < |olds| :: mid[q] == olds[q]
    ensures Receipts(s, k, mid) == Receipts(s, k, olds)
    decreases |s|
  {
    if s != [] {
      ReceiptsAgree(s[..|s| - 1], k, olds, mid);
      AdvanceCompose(k, |Leaves(s[..|s| - 1])|, 0, |olds|);
    }
  }

  /** The receipts of a concatenated walk: the second part continues from the counter the first part left. */
  lemma {:induction false} ReceiptsAppend(a: seq<Column>, b: seq<Column>, k: nat, olds: Lists)
    ensures Receipts(a + b, k, olds) == Receipts(a, k, olds) + Receipts(b, Advance(k, |Leaves(a)|, |olds|), olds)
    decreases |b|
  {
    if b == [] {
      assert a + b == a;
    } else {
      var b' := b[..|b| - 1];
      var c := b[|b| - 1];
      assert (a + b)[..|a + b| - 1] == a + b' && (a + b)[|a + b| - 1] == c;
      var k' := Advance(k, |Leaves(a)|, |olds|);
      ReceiptsAppend(a, b', k, olds);
      LeavesAppend(a, b');
      AdvanceCompose(k, |Leaves(a)|, |Leaves(b')|, |olds|);
      assert Advance(k, |Leaves(a + b')|, |olds|) == Advance(k', |Leaves(b')|, |olds|);
      var last := Receive(c, Advance(k', |Leaves(b')|, |olds|), olds);
      assert Receipts(a + b, k, olds) == Receipts(a + b', k, olds) + [last];
      assert Receipts(b, k', olds) == Receipts(b', k', olds) + [last];
      assert (Receipts(a, k, olds) + Receipts(b', k', olds)) + [last] ==
             Receipts(a, k, olds) + (Receipts(b', k', olds) + [last]);
    }
  }

  lemma {:induction false} FillAllAppend(a: Lists, ra: seq<seq<Widget>>, b: Lists, rb: seq<seq<Widget>>)
    requires |ra| == |a| && |rb| == |b|
    ensures FillAll(a + b, ra + rb) == FillAll(a, ra) + FillAll(b, rb)
    decreases |b|
  {
    if b == [] {
      assert a + b == a && ra + rb == ra;
    } else {
      var n := |b| - 1;
      assert (a + b)[..|a + b| - 1] == a + b[..n];
      assert (ra + rb)[..|a + b| - 1] == ra + rb[..n];
      FillAllAppend(a, ra, b[..n], rb[..n]);
    }
  }

  /** The counter and the old columns after two consecutive parts of a walk. */
  lemma CounterStep(d: seq<Column>, p: seq<Column>, counter: nat, k1: nat, k2: nat, olds: Lists, mid: Lists, now: Lists)
    requires mid == Drain(olds, counter, k1) && k1 == Advance(counter, |Leaves(d)|, |olds|)
    requires now == Drain(mid, k1, k2) && k2 == Advance(k1, |Leaves(p)|, |olds|)
    ensures now == Drain(olds, counter, k2) && k2 == Advance(counter, |Leaves(d + p)|, |olds|)
  {
    AdvanceCompose(counter, |Leaves(d)|, |Leaves(p)|, |olds|);
    AdvanceCompose(k1, |Leaves(p)|, 0, |olds|);
    LeavesAppend(d, p);
    DrainCompose(olds, counter, k1, k2);
  }

  /** The lists of two consecutive parts of a walk: the second part reads the old
      columns as the first part left them, which it does not see. */
  lemma FillStep(d: seq<Column>, p: seq<Column>, wd0: Lists, wb: Lists, counter: nat, k1: nat, olds: Lists, mid: Lists)
    requires |wd0| == |d| && |wb| == |p|
    requires mid == Drain(olds, counter, k1) && k1 == Advance(counter, |Leaves(d)|, |olds|)
    ensures FillAll(wd0, Receipts(d, counter, olds)) + FillAll(wb, Receipts(p, k1, mid))
            == FillAll(wd0 + wb, Receipts(d + p, counter, olds))
  {
    AdvanceCompose(counter, |Leaves(d)|, 0, |olds|);
    forall q | k1 <= q < |olds|
      ensures mid[q] == olds[q]
    {
      DrainAt(olds, counter, k1);
    }
    ReceiptsAgree(p, k1, olds, mid);
    ReceiptsAppend(d, p, counter, olds);
    FillAllAppend(wd0, Receipts(d, counter, olds), wb, Receipts(p, k1, olds));
  }

  /**
   * One step of a walk: `d` was visited by the pass so far, starting from
   * `done`, and holds `wd`; `p` has just been visited, going from `wb` to `wa`.
   */
  lemma WalkStep(d: seq<Column>, p: seq<Column>, s: seq<Column>, done: Lists, wd: Lists, wb: Lists, wa: Lists,
                 wall: Lists, counter: nat, k1: nat, k2: nat, olds: Lists, mid: Lists, now: Lists)
    requires s == d + p && wall == wd + wa
    requires |done| == |d| && |wb| == |p|
    requires wd == FillAll(done, Receipts(d, counter, olds))
    requires mid == Drain(olds, counter, k1) && k1 == Advance(counter, |Leaves(d)|, |olds|)
    requires wa == FillAll(wb, Receipts(p, k1, mid))
    requires now == Drain(mid, k1, k2) && k2 == Advance(k1, |Leaves(p)|, |olds|)
    ensures wall == FillAll(done + wb, Receipts(s, counter, olds))
    ensures now == Drain(olds, counter, k2) && k2 == Advance(counter, |Leaves(s)|, |olds|)
  {
    CounterStep(d, p, counter, k1, k2, olds, mid, now);
    FillStep(d, p, done, wb, counter, k1, olds, mid);
  }

  lemma ListsAssoc(a: Lists, b: Lists, c: Lists)
    ensures a + (b + c) == (a + b) + c
  {
  }

  /** The pre-order walk of a row list, split around row `i`. */
  lemma RowsAround(rows: seq<Row>, i: nat)
    requires ForestRows(rows) && i < |rows|
    ensures ForestRows(rows[..i]) && ForestRows(rows[..i + 1]) && ForestRows(rows[i..]) && ForestRows(rows[i + 1..])
    ensures ForestColumns(rows[i].columns)
    ensures PreorderRows(rows[..i + 1]) == PreorderRows(rows[..i]) + PreorderColumns(rows[i].columns)
    ensures PreorderRows(rows[i..]) == PreorderColumns(rows[i].columns) + PreorderRows(rows[i + 1..])
  {
    ForestRowsSplit(rows, i);
    ForestRowsSplit(rows, i + 1);
    assert rows[i] in rows;
    assert rows[..i + 1][..i] == rows[..i];
    assert rows[i..] == [rows[i]] + rows[i + 1..];
    PreorderRowsAppend([rows[i]], rows[i + 1..]);
    assert [rows[i]][..0] == [];
  }

  /** The pre-order walk of a column list, split around column `j`. */
  lemma ColumnsAround(cs: seq<Column>, j: nat)
    requires ForestColumns(cs) && j < |cs|
    ensures ForestColumns(cs[..j]) && ForestColumns(cs[..j + 1]) && ForestColumns(cs[j..]) && ForestColumns(cs[j + 1..])
    ensures Tree(cs[j])
    ensures PreorderColumns(cs[..j + 1]) == PreorderColumns(cs[..j]) + PreorderColumn(cs[j])
    ensures PreorderColumns(cs[j..]) == PreorderColumn(cs[j]) + PreorderColumns(cs[j + 1..])
  {
    ForestColumnsSplit(cs, j);
    ForestColumnsSplit(cs, j + 1);
    assert cs[j] in cs;
    assert cs[..j + 1][..j] == cs[..j];
    assert cs[j..] == [cs[j]] + cs[j + 1..];
    PreorderColumnsAppend([cs[j]], cs[j + 1..]);
    assert [cs[j]][..0] == [];
  }

  lemma ForestRowsSplit(rows: seq<Row>, i: nat)
    requires ForestRows(rows) && i <= |rows|
    ensures ForestRows(rows[..i]) && ForestRows(rows[i..])
  {
    forall r, d | r in rows[..i] && d in r.columns
      ensures Tree(d)
    {
      assert r in rows;
    }
    forall r, d | r in rows[i..] && d in r.columns
      ensures Tree(d)
    {
      assert r in rows;
    }
  }

  lemma ForestColumnsSplit(cs: seq<Column>, j: nat)
    requires ForestColumns(cs) && j <= |cs|
    ensures ForestColumns(cs[..j]) && ForestColumns(cs[j..])
  {
    forall d | d in cs[..j]
      ensures Tree(d)
    {
      assert d in cs;
    }
    forall d | d in cs[j..]
      ensures Tree(d)
    {
      assert d in cs;
    }
  }

  lemma ConcatAssoc(a: seq<Column>, b: seq<Column>, c: seq<Column>)
    ensures a + (b + c) == (a + b) + c
  {
  }

  /** In a walk without aliasing, the parts of a split share no column, and none is an old column. */
  lemma DistinctParts(d: seq<Column>, p: seq<Column>, later: seq<Column>, columns: seq<Column>)
    requires Distinct(d + (p + later))
    requires forall c | c in columns :: c !in d + (p + later)
    ensures Distinct(p)
    ensures forall c | c in p :: c !in columns
    ensures forall c | c in columns :: c !in p
    ensures forall c | c in d :: c !in p && c !in columns
    ensures forall c | c in later :: c !in p && c !in columns
  {
    var s := d + (p + later);
    forall i, t | 0 <= i < |d| && 0 <= t < |p|
      ensures d[i] != p[t]
    {
      assert s[i] == d[i] && s[|d| + t] == p[t];
    }
    forall i, t | 0 <= i < |later| && 0 <= t < |p|
      ensures later[i] != p[t]
    {
      assert s[|d| + |p| + i] == later[i] && s[|d| + t] == p[t];
    }
    forall a, b | 0 <= a < b < |p|
      ensures p[a] != p[b]
    {
      assert s[|d| + a] == p[a] && s[|d| + b] == p[b];
    }
  }

  /** Columns whose lists a step did not touch keep their lists. */
  twostate lemma {:induction false} ListsUnchanged(s: seq<Column>)
    requires forall c | c in s :: old(c.widgets) == c.widgets
    ensures WidgetLists(s) == old(WidgetLists(s))
    decreases |s|
  {
    if s != [] {
      ListsUnchanged(s[..|s| - 1]);
    }
  }

  /** The visit of a single column: its list made an array, then what it receives appended. */
  lemma FirstVisit(column: Column, w0: Option<seq<Widget>>, w1: seq<Widget>, counter: nat, olds: Lists)
    requires w1 == Val(w0) + Receive(column, counter, olds)
    ensures [Some(w1)] == FillAll([w0], Receipts([column], counter, olds))
    ensures |Leaves([column])| == if IsLeaf(column) then 1 else 0
  {
    assert [column][..0] == [];
    assert [w0][..0] == [];
  }

  // ---------------------------------------------------------------------------
  // fillStructure and the two forEach callbacks it is made of

  /**
   * `fillStructure(root, columns, counter)`: walk the columns below `root`
   * in pre-order; each gets a widget array if it had none, and each leaf
   * takes the widgets of `columns[counter]` and advances the counter while
   * that old column exists.
   */
  method FillStructure(root: Nested, columns: seq<Column>, counter: nat) returns (next: nat)
    requires ForestRows(RowsOf(root))
    requires Distinct(PreorderNested(root)) && Distinct(columns)
    requires forall c | c in columns :: c !in PreorderNested(root)
    modifies Elems(PreorderNested(root)), Elems(columns)
    ensures next == Advance(counter, |Leaves(PreorderNested(root))|, |columns|)
    ensures WidgetLists(PreorderNested(root)) ==
            FillAll(old(WidgetLists(PreorderNested(root))), Receipts(PreorderNested(root), counter, old(WidgetLists(columns))))
    ensures WidgetLists(columns) == Drain(old(WidgetLists(columns)), counter, next)
    decreases BoundRows(RowsOf(root)), 2
  {
    next := counter;
    // forEach over an undefined or null `rows` visits nothing
    var rows := RowsOf(root);
    ghost var s0 := WidgetLists(PreorderRows(rows));
    ghost var olds := WidgetLists(columns);
    DrainNothing(olds, counter);
    ghost var done: Lists, rest := [], s0;
    assert rows[..0] == [] && rows[0..] == rows && [] + s0 == s0;
    for i := 0 to |rows|
      invariant PreorderRows(rows) == PreorderRows(rows[..i]) + PreorderRows(rows[i..])
      invariant next == Advance(counter, |Leaves(PreorderRows(rows[..i]))|, |columns|)
      invariant done + rest == s0 && |done| == |PreorderRows(rows[..i])|
      invariant WidgetLists(PreorderRows(rows[..i])) == FillAll(done, Receipts(PreorderRows(rows[..i]), counter, olds))
      invariant WidgetLists(PreorderRows(rows[i..])) == rest
      invariant WidgetLists(columns) == Drain(olds, counter, next)
    {
      ghost var d := PreorderRows(rows[..i]);
      ghost var p := PreorderColumns(rows[i].columns);
      ghost var later := PreorderRows(rows[i + 1..]);
      RowsAround(rows, i);
      DistinctParts(d, p, later, columns);
      WidgetListsAppend(p, later);
      ConcatAssoc(d, p, later);
      ghost var wd := WidgetLists(d);
      ghost var wb := WidgetLists(p);
      ghost var wl := WidgetLists(later);
      ghost var mid := WidgetLists(columns);
      ghost var k1 := next;
      BoundRowAt(rows, i);
      label Visit:
      next := FillRow(rows[i], columns, next);
      assert forall c | c in d :: c !in Elems(p) && c !in Elems(columns);
      ListsUnchanged@Visit(d);
      assert forall c | c in later :: c !in Elems(p) && c !in Elems(columns);
      ListsUnchanged@Visit(later);
      WidgetListsAppend(d, p);
      WalkStep(d, p, PreorderRows(rows[..i + 1]), done, wd, wb, WidgetLists(p), WidgetLists(PreorderRows(rows[..i + 1])),
               counter, k1, next, olds, mid, WidgetLists(columns));
      ListsAssoc(done, wb, wl);
      ghost var d' := PreorderRows(rows[..i + 1]);
      assert PreorderRows(rows) == d' + later;
      assert done + wb + wl == s0 && |done + wb| == |d'|;
      assert WidgetLists(d') == FillAll(done + wb, Receipts(d', counter, olds));
      assert WidgetLists(later) == wl;
      done, rest := done + wb, wl;
    }
    assert rows[..|rows|] == rows && rows[|rows|..] == [] && done + [] == done;
  }

  /** The callback `fillStructure` runs for each row: every column of the row in turn. */
  method FillRow(row: Row, columns: seq<Column>, counter: nat) returns (next: nat)
    requires ForestColumns(row.columns)
    requires Distinct(PreorderColumns(row.columns)) && Distinct(columns)
    requires forall c | c in columns :: c !in PreorderColumns(row.columns)
    modifies Elems(PreorderColumns(row.columns)), Elems(columns)
    ensures next == Advance(counter, |Leaves(PreorderColumns(row.columns))|, |columns|)
    ensures WidgetLists(PreorderColumns(row.columns)) ==
            FillAll(old(WidgetLists(PreorderColumns(row.columns))), Receipts(PreorderColumns(row.columns), counter, old(WidgetLists(columns))))
    ensures WidgetLists(columns) == Drain(old(WidgetLists(columns)), counter, next)
    decreases Bound(row.columns), 1
  {
    next := counter;
    var cs := row.columns;
    ghost var s0 := WidgetLists(PreorderColumns(cs));
    ghost var olds := WidgetLists(columns);
    BoundAbove(cs);
    DrainNothing(olds, counter);
    ghost var done: Lists, rest := [], s0;
    assert cs[..0] == [] && cs[0..] == cs && [] + s0 == s0;
    for j := 0 to |cs|
      invariant PreorderColumns(cs) == PreorderColumns(cs[..j]) + PreorderColumns(cs[j..])
      invariant next == Advance(counter, |Leaves(PreorderColumns(cs[..j]))|, |columns|)
      invariant done + rest == s0 && |done| == |PreorderColumns(cs[..j])|
      invariant WidgetLists(PreorderColumns(cs[..j])) == FillAll(done, Receipts(PreorderColumns(cs[..j]), counter, olds))
      invariant WidgetLists(PreorderColumns(cs[j..])) == rest
      invariant WidgetLists(columns) == Drain(olds, counter, next)
    {
      ghost var d := PreorderColumns(cs[..j]);
      ghost var p := PreorderColumn(cs[j]);
      ghost var later := PreorderColumns(cs[j + 1..]);
      ColumnsAround(cs, j);
      DistinctParts(d, p, later, columns);
      WidgetListsAppend(p, later);
      ConcatAssoc(d, p, later);
      ghost var wd := WidgetLists(d);
      ghost var wb := WidgetLists(p);
      ghost var wl := WidgetLists(later);
      ghost var mid := WidgetLists(columns);
      ghost var k1 := next;
      label Visit:
      next := FillColumn(cs[j], columns, next);
      assert forall c | c in d :: c !in Elems(p) && c !in Elems(columns);
      ListsUnchanged@Visit(d);
      assert forall c | c in later :: c !in Elems(p) && c !in Elems(columns);
      ListsUnchanged@Visit(later);
      WidgetListsAppend(d, p);
      WalkStep(d, p, PreorderColumns(cs[..j + 1]), done, wd, wb, WidgetLists(p), WidgetLists(PreorderColumns(cs[..j + 1])),
               counter, k1, next, olds, mid, WidgetLists(columns));
      ListsAssoc(done, wb, wl);
      ghost var d' := PreorderColumns(cs[..j + 1]);
      assert PreorderColumns(cs) == d' + later;
      assert done + wb + wl == s0 && |done + wb| == |d'|;
      assert WidgetLists(d') == FillAll(done + wb, Receipts(d', counter, olds));
      assert WidgetLists(later) == wl;
      done, rest := done + wb, wl;
    }
    assert cs[..|cs|] == cs && cs[|cs|..] == [] && done + [] == done;
  }

  /**
   * The first half of the column callback: give the column a widget array if
   * it has none and, if it is a leaf and an old column exists at the counter,
   * move that old column's leading widgets into it and advance the counter.
   */
  method TakeWidgets(column: Column, columns: seq<Column>, counter: nat) returns (next: nat)
    requires Distinct(columns) && column !in columns
    modifies column, Elems(columns)
    ensures column.widgets == Some(Val(old(column.widgets)) + Receive(column, counter, old(WidgetLists(columns))))
    ensures next == Advance(counter, if IsLeaf(column) then 1 else 0, |columns|)
    ensures WidgetLists(columns) == Drain(old(WidgetLists(columns)), counter, next)
  {
    ghost var olds := WidgetLists(columns);
    if column.widgets.None? {
      column.widgets := Some([]);
    }
    next := counter;
    if next < |columns| {
      if IsLeaf(column) {
        assert WidgetLists(columns) == olds;
        WidgetListsAt(columns);
        assert forall i | 0 <= i < |columns| && i != next :: columns[i] != columns[next] && columns[i] != column;
        CopyWidgets(columns[next], column);
        assert columns[next].widgets == Rest(olds[next]);
        WidgetListsAt(columns);
        assert WidgetLists(columns) == olds[next := columns[next].widgets];
        DrainOne(olds, counter);
        assert WidgetLists(columns) == Drain(olds, counter, counter + 1);
        next := next + 1;
      }
    }
    if next == counter {
      DrainNothing(olds, counter);
      assert Val(old(column.widgets)) + [] == Val(old(column.widgets));
    }
  }

  /** The callback `fillStructure` runs for each column: give it a widget array,
      fill it if it is a leaf and an old column is left, then descend into its rows. */
  method FillColumn(column: Column, columns: seq<Column>, counter: nat) returns (next: nat)
    requires Tree(column)
    requires Distinct(PreorderColumn(column)) && Distinct(columns)
    requires forall c | c in columns :: c !in PreorderColumn(column)
    modifies Elems(PreorderColumn(column)), Elems(columns)
    ensures next == Advance(counter, |Leaves(PreorderColumn(column))|, |columns|)
    ensures WidgetLists(PreorderColumn(column)) ==
            FillAll(old(WidgetLists(PreorderColumn(column))), Receipts(PreorderColumn(column), counter, old(WidgetLists(columns))))
    ensures WidgetLists(columns) == Drain(old(WidgetLists(columns)), counter, next)
    decreases column.height + 1, 0
  {
    ghost var below := PreorderNested(column.nested);
    assert below + [] == below;
    assert PreorderColumn(column) == [column] + (below + []);
    DistinctParts([column], below, [], columns);
    assert column in [column];
    assert column !in columns && column !in below;
    WidgetListsAppend([column], below);
    assert [column][..0] == [];
    ghost var s0 := WidgetLists(PreorderColumn(column));
    ghost var w0 := column.widgets;
    ghost var wl := WidgetLists(below);
    ghost var olds := WidgetLists(columns);
    assert s0 == [w0] + wl;
    label Start:
    next := TakeWidgets(column, columns, counter);
    assert forall c | c in below :: c != column && c !in columns;
    ListsUnchanged@Start(below);
    FirstVisit(column, w0, column.widgets.value, counter, olds);
    ghost var mid := WidgetLists(columns);
    ghost var wd := WidgetLists([column]);
    ghost var k1 := next;
    BoundRowsBelow(RowsOf(column.nested), column.height);
    label Visit:
    next := FillStructure(column.nested, columns, next);
    assert column !in Elems(below) && column !in Elems(columns);
    ListsUnchanged@Visit([column]);
    WidgetListsAppend([column], below);
    WalkStep([column], below, PreorderColumn(column), [w0], wd, wl, WidgetLists(below), WidgetLists(PreorderColumn(column)),
             counter, k1, next, olds, mid, WidgetLists(columns));
  }
}
