/**
 * The dashboard layout tree as the dashboard directive holds it in memory.
 * A model has rows, a row has columns, and a column either nests rows of
 * its own (a container column) or holds an ordered list of widgets (a leaf).
 *
 * Columns are shared, mutable objects: the layout migration empties the old
 * columns and fills the new ones in place, so a column is a class whose only
 * mutable field is its widget list. No modelled routine reassigns a column's
 * own `rows`, which is therefore a constant of the object.
 */
module LayoutTree {

  datatype Option<+T> = None | Some(value: T)

  /** A widget list entry. Widgets are configuration objects and always truthy;
      `Missing` is a null or undefined entry, the only falsy value a list can hold. */
  datatype Widget = Missing | Object(id: nat)

  predicate Truthy(w: Widget) { w.Object? }

  /** The value of a `rows` property: absent, null, or an array of rows. */
  datatype Nested = Undefined | Null | Rows(rows: seq<Row>)

  /** A row. A row whose `columns` is not an array is the row with no columns:
      every routine of the directive skips such a row exactly as an empty one. */
  datatype Row = Row(columns: seq<Column>)

  function RowsOf(n: Nested): seq<Row>
  {
    if n.Rows? then n.rows else []
  }

  class Column {
    /** The column's own `rows` property. */
    const nested: Nested
    /** One more than the height of the deepest column nested below this one;
        it is what makes the object graph a finite tree. */
    const height: nat
    /** The column's `widgets` property: `None` when it is undefined or null. */
    var widgets: Option<seq<Widget>>

    constructor (nested: Nested, widgets: Option<seq<Widget>>)
      requires ForestRows(RowsOf(nested))
      ensures this.nested == nested && this.widgets == widgets
      ensures Tree(this)
    {
      BoundRowsAbove(RowsOf(nested));
      this.nested := nested;
      this.height := BoundRows(RowsOf(nested));
      this.widgets := widgets;
    }
  }

  /** The dashboard model object. */
  class Model {
    var rows: Nested
    var title: Option<string>
    var titleTemplateUrl: Option<string>
    /** The name of the structure the rows were last taken from. */
    var structure: Option<string>

    constructor (rows: Nested, title: Option<string>, titleTemplateUrl: Option<string>, structure: Option<string>)
      ensures this.rows == rows && this.title == title
      ensures this.titleTemplateUrl == titleTemplateUrl && this.structure == structure
    {
      this.rows := rows;
      this.title := title;
      this.titleTemplateUrl := titleTemplateUrl;
      this.structure := structure;
    }
  }

  function Max(a: nat, b: nat): nat { if a < b then b else a }

  /** One more than the largest height among `cs`. */
  function Bound(cs: seq<Column>): nat
  {
    if cs == [] then 0 else Max(Bound(cs[..|cs| - 1]), cs[|cs| - 1].height + 1)
  }

  function BoundRows(rows: seq<Row>): nat
  {
    if rows == [] then 0 else Max(BoundRows(rows[..|rows| - 1]), Bound(rows[|rows| - 1].columns))
  }

  lemma BoundAbove(cs: seq<Column>)
    ensures forall d | d in cs :: d.height < Bound(cs)
  {
    if cs != [] {
      BoundAbove(cs[..|cs| - 1]);
      assert cs == cs[..|cs| - 1] + [cs[|cs| - 1]];
    }
  }

  lemma BoundRowsAbove(rows: seq<Row>)
    ensures forall r, d | r in rows && d in r.columns :: d.height < BoundRows(rows)
  {
    if rows != [] {
      BoundRowsAbove(rows[..|rows| - 1]);
      BoundAbove(rows[|rows| - 1].columns);
      assert rows == rows[..|rows| - 1] + [rows[|rows| - 1]];
    }
  }

  lemma BoundBelow(cs: seq<Column>, h: nat)
    requires forall d | d in cs :: d.height < h
    ensures Bound(cs) <= h
  {
    if cs != [] {
      BoundBelow(cs[..|cs| - 1], h);
    }
  }

  lemma BoundRowsBelow(rows: seq<Row>, h: nat)
    requires forall r, d | r in rows && d in r.columns :: d.height < h
    ensures BoundRows(rows) <= h
  {
    if rows != [] {
      BoundRowsBelow(rows[..|rows| - 1], h);
      BoundBelow(rows[|rows| - 1].columns, h);
    }
  }

  lemma {:induction false} BoundRowAt(rows: seq<Row>, i: nat)
    requires i < |rows|
    ensures Bound(rows[i].columns) <= BoundRows(rows)
    decreases |rows|
  {
    if i < |rows| - 1 {
      BoundRowAt(rows[..|rows| - 1], i);
    }
  }

  /** Every column below `c` is strictly lower than `c`: the object graph under `c` is a tree of finite depth. */
  predicate Tree(c: Column)
    decreases c.height
  {
    forall r, d | r in RowsOf(c.nested) && d in r.columns :: d.height < c.height && Tree(d)
  }

  predicate ForestRows(rows: seq<Row>)
  {
    forall r, d | r in rows && d in r.columns :: Tree(d)
  }

  predicate ForestColumns(cs: seq<Column>)
  {
    forall d | d in cs :: Tree(d)
  }

  /** The columns of a column's subtree, the column first, in depth-first pre-order. */
  function PreorderColumn(c: Column): seq<Column>
    requires Tree(c)
    decreases c.height + 1, 0
  {
    BoundRowsBelow(RowsOf(c.nested), c.height);
    [c] + PreorderRows(RowsOf(c.nested))
  }

  /** Every column of `rows` and below, row by row and column by column, each before its nested columns. */
  function PreorderRows(rows: seq<Row>): seq<Column>
    requires ForestRows(rows)
    decreases BoundRows(rows), 2, |rows|
  {
    if rows == [] then []
    else PreorderRows(rows[..|rows| - 1]) + PreorderColumns(rows[|rows| - 1].columns)
  }

  function PreorderColumns(cs: seq<Column>): seq<Column>
    requires ForestColumns(cs)
    decreases Bound(cs), 1, |cs|
  {
    if cs == [] then []
    else PreorderColumns(cs[..|cs| - 1]) + PreorderColumn(cs[|cs| - 1])
  }

  /** Every column below a `rows` property, in depth-first pre-order. */
  function PreorderNested(n: Nested): seq<Column>
    requires ForestRows(RowsOf(n))
  {
    PreorderRows(RowsOf(n))
  }

  lemma {:induction false} PreorderColumnsAppend(a: seq<Column>, b: seq<Column>)
    requires ForestColumns(a) && ForestColumns(b)
    ensures ForestColumns(a + b)
    ensures PreorderColumns(a + b) == PreorderColumns(a) + PreorderColumns(b)
    decreases |b|
  {
    if b == [] {
      assert a + b == a;
    } else {
      var b' := b[..|b| - 1];
      assert (a + b)[..|a + b| - 1] == a + b' && (a + b)[|a + b| - 1] == b[|b| - 1];
      assert PreorderColumns(b) == PreorderColumns(b') + PreorderColumn(b[|b| - 1]);
      PreorderColumnsAppend(a, b');
      assert PreorderColumns(a + b) == PreorderColumns(a + b') + PreorderColumn(b[|b| - 1]);
    }
  }

  lemma {:induction false} PreorderRowsAppend(a: seq<Row>, b: seq<Row>)
    requires ForestRows(a) && ForestRows(b)
    ensures ForestRows(a + b)
    ensures PreorderRows(a + b) == PreorderRows(a) + PreorderRows(b)
    decreases |b|
  {
    if b == [] {
      assert a + b == a;
    } else {
      var b' := b[..|b| - 1];
      assert (a + b)[..|a + b| - 1] == a + b' && (a + b)[|a + b| - 1] == b[|b| - 1];
      assert PreorderRows(b) == PreorderRows(b') + PreorderColumns(b[|b| - 1].columns);
      PreorderRowsAppend(a, b');
      assert PreorderRows(a + b) == PreorderRows(a + b') + PreorderColumns(b[|b| - 1].columns);
    }
  }

  /** The test `fillStructure` uses: a column whose `rows` is undefined receives widgets. */
  predicate IsLeaf(c: Column) { c.nested.Undefined? }

  /** The leaf columns of `s`, in order. */
  function Leaves(s: seq<Column>): seq<Column>
  {
    if s == [] then []
    else Leaves(s[..|s| - 1]) + (if IsLeaf(s[|s| - 1]) then [s[|s| - 1]] else [])
  }

  lemma {:induction false} LeavesAppend(a: seq<Column>, b: seq<Column>)
    ensures Leaves(a + b) == Leaves(a) + Leaves(b)
    decreases |b|
  {
    if b == [] {
      assert a + b == a;
    } else {
      var b' := b[..|b| - 1];
      assert (a + b)[..|a + b| - 1] == a + b';
      LeavesAppend(a, b');
    }
  }

  /** No column occurs twice: nothing in the list is aliased. */
  predicate Distinct(s: seq<Column>)
  {
    forall i, j | 0 <= i < j < |s| :: s[i] != s[j]
  }

  /** The columns of `s`, as a set. */
  function Elems(s: seq<Column>): set<Column>
  {
    set c | c in s
  }

  lemma DistinctConcat(a: seq<Column>, b: seq<Column>)
    requires Distinct(a) && Distinct(b)
    requires forall c | c in a :: c !in b
    ensures Distinct(a + b)
  {
    forall i, j | 0 <= i < j < |a + b|
      ensures (a + b)[i] != (a + b)[j]
    {
      if j >= |a| && i < |a| {
        assert (a + b)[i] in a && (a + b)[j] in b;
      }
    }
  }

  /** The widgets a list holds: an undefined or null list holds none. */
  function Val(w: Option<seq<Widget>>): seq<Widget>
  {
    if w.Some? then w.value else []
  }
}
