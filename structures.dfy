/**
 * Named structures: the layout templates a dashboard can be reset to. A
 * structure is never changed by the directive, so it is a value; putting it on
 * a dashboard deep-copies its rows into fresh, unaliased column objects.
 */
module Structures {
  import opened LayoutTree

  /** A `rows` property inside a structure: absent, null, or an array of rows. */
  datatype NestedValue = UndefinedRows | NullRows | RowsValue(rows: seq<RowValue>)

  datatype RowValue = RowValue(columns: seq<ColumnValue>)

  datatype ColumnValue = ColumnValue(nested: NestedValue, widgets: Option<seq<Widget>>)

  /** A registered structure. Besides its rows it may carry a title and a title template,
      which a model created from it inherits. */
  datatype Structure = Structure(rows: NestedValue, title: Option<string>, titleTemplateUrl: Option<string>)

  function RowsOfValue(n: NestedValue): seq<RowValue>
  {
    if n.RowsValue? then n.rows else []
  }

  /** The columns of a structure's column subtree, the column first, in depth-first pre-order. */
  function ValuePreorderColumn(c: ColumnValue): seq<ColumnValue>
    decreases c
  {
    [c] + match c.nested
      case RowsValue(rows) => ValuePreorderRows(rows)
      case _ => []
  }

  function ValuePreorderRows(rows: seq<RowValue>): seq<ColumnValue>
    decreases rows
  {
    if rows == [] then []
    else ValuePreorderRows(rows[..|rows| - 1]) + ValuePreorderColumns(rows[|rows| - 1].columns)
  }

  function ValuePreorderColumns(cs: seq<ColumnValue>): seq<ColumnValue>
    decreases cs
  {
    if cs == [] then []
    else ValuePreorderColumns(cs[..|cs| - 1]) + ValuePreorderColumn(cs[|cs| - 1])
  }

  function ValuePreorderNested(n: NestedValue): seq<ColumnValue>
  {
    ValuePreorderRows(RowsOfValue(n))
  }

  /** The number of leaf columns (those whose `rows` is undefined) among `vs`. */
  function ValueLeafCount(vs: seq<ColumnValue>): nat
  {
    if vs == [] then 0
    else ValueLeafCount(vs[..|vs| - 1]) + (if vs[|vs| - 1].nested.UndefinedRows? then 1 else 0)
  }

  /** A structure's shape: the same tree with every widget list removed. */
  function StripColumn(c: ColumnValue): ColumnValue
    decreases c
  {
    ColumnValue(
      match c.nested
        case RowsValue(rows) => RowsValue(StripRows(rows))
        case UndefinedRows => UndefinedRows
        case NullRows => NullRows,
      None)
  }

  function StripRows(rows: seq<RowValue>): seq<RowValue>
    decreases rows
  {
    if rows == [] then []
    else StripRows(rows[..|rows| - 1]) + [RowValue(StripColumns(rows[|rows| - 1].columns))]
  }

  function StripColumns(cs: seq<ColumnValue>): seq<ColumnValue>
    decreases cs
  {
    if cs == [] then []
    else StripColumns(cs[..|cs| - 1]) + [StripColumn(cs[|cs| - 1])]
  }

  function StripNested(n: NestedValue): NestedValue
  {
    match n
    case RowsValue(rows) => RowsValue(StripRows(rows))
    case UndefinedRows => UndefinedRows
    case NullRows => NullRows
  }

  /** The shape of a column object tree, as a value: its rows and columns without widgets. */
  function SkeletonColumn(c: Column): ColumnValue
    requires Tree(c)
    decreases c.height + 1, 0
  {
    BoundRowsBelow(RowsOf(c.nested), c.height);
    ColumnValue(
      match c.nested
        case Rows(rows) => RowsValue(SkeletonRows(rows))
        case Undefined => UndefinedRows
        case Null => NullRows,
      None)
  }

  function SkeletonRows(rows: seq<Row>): seq<RowValue>
    requires ForestRows(rows)
    decreases BoundRows(rows), 2, |rows|
  {
    if rows == [] then []
    else SkeletonRows(rows[..|rows| - 1]) + [RowValue(SkeletonColumns(rows[|rows| - 1].columns))]
  }

  function SkeletonColumns(cs: seq<Column>): seq<ColumnValue>
    requires ForestColumns(cs)
    decreases Bound(cs), 1, |cs|
  {
    if cs == [] then []
    else SkeletonColumns(cs[..|cs| - 1]) + [SkeletonColumn(cs[|cs| - 1])]
  }

  function SkeletonNested(n: Nested): NestedValue
    requires ForestRows(RowsOf(n))
  {
    match n
    case Rows(rows) => RowsValue(SkeletonRows(rows))
    case Undefined => UndefinedRows
    case Null => NullRows
  }

  /** A column object and a structure column have the same kind of `rows` property. */
  predicate SameKind(n: Nested, v: NestedValue)
  {
    (n.Undefined? <==> v.UndefinedRows?) && (n.Null? <==> v.NullRows?)
  }

  /** Position by position, the objects hold the widget lists of the values and nest rows alike. */
  predicate Copied(objs: seq<Column>, vals: seq<ColumnValue>)
    reads Elems(objs)
  {
    |objs| == |vals| &&
    forall i | 0 <= i < |objs| :: objs[i].widgets == vals[i].widgets && SameKind(objs[i].nested, vals[i].nested)
  }

  lemma CopiedConcat(a: seq<Column>, va: seq<ColumnValue>, b: seq<Column>, vb: seq<ColumnValue>)
    requires Copied(a, va) && Copied(b, vb)
    ensures Copied(a + b, va + vb)
  {
    forall i | 0 <= i < |a + b|
      ensures (a + b)[i].widgets == (va + vb)[i].widgets && SameKind((a + b)[i].nested, (va + vb)[i].nested)
    {
      if i >= |a| {
        assert (a + b)[i] == b[i - |a|] && (va + vb)[i] == vb[i - |a|];
      }
    }
  }

  /** Copying keeps the number of leaf columns. */
  lemma {:induction false} CopiedLeafCount(objs: seq<Column>, vals: seq<ColumnValue>)
    requires Copied(objs, vals)
    ensures |Leaves(objs)| == ValueLeafCount(vals)
    decreases |objs|
  {
    if objs != [] {
      var k := |objs| - 1;
      assert Copied(objs[..k], vals[..k]) by {
        forall i | 0 <= i < k
          ensures objs[..k][i].widgets == vals[..k][i].widgets && SameKind(objs[..k][i].nested, vals[..k][i].nested)
        {
          assert objs[..k][i] == objs[i] && vals[..k][i] == vals[i];
        }
      }
      CopiedLeafCount(objs[..k], vals[..k]);
      assert SameKind(objs[k].nested, vals[k].nested);
    }
  }

  /**
   * Deep copy of a structure's `rows` property into fresh column objects:
   * the copy has the structure's shape, holds the structure's widget lists
   * column by column, and shares no column with anything that existed before.
   */
  method CopyNested(t: NestedValue) returns (n: Nested)
    ensures ForestRows(RowsOf(n))
    ensures SkeletonNested(n) == StripNested(t)
    ensures Copied(PreorderNested(n), ValuePreorderNested(t))
    ensures Distinct(PreorderNested(n))
    ensures forall c | c in PreorderNested(n) :: fresh(c) && allocated(c)
    decreases t, 3
  {
    match t
    case UndefinedRows =>
      n := Undefined;
    case NullRows =>
      n := Null;
    case RowsValue(trows) =>
      var rows := CopyRows(trows);
      n := Rows(rows);
  }

  /** The copy of an array of rows. */
  method CopyRows(trows: seq<RowValue>) returns (rows: seq<Row>)
    ensures ForestRows(rows)
    ensures SkeletonRows(rows) == StripRows(trows)
    ensures Copied(PreorderRows(rows), ValuePreorderRows(trows))
    ensures Distinct(PreorderRows(rows))
    ensures forall c | c in PreorderRows(rows) :: fresh(c) && allocated(c)
    decreases trows, 2
  {
    rows := [];
    for i := 0 to |trows|
      invariant ForestRows(rows) && |rows| == i
      invariant SkeletonRows(rows) == StripRows(trows[..i])
      invariant Copied(PreorderRows(rows), ValuePreorderRows(trows[..i]))
      invariant Distinct(PreorderRows(rows))
      invariant forall c | c in PreorderRows(rows) :: fresh(c) && allocated(c)
    {
      ghost var before := PreorderRows(rows);
      assert forall c | c in Elems(before) :: allocated(c);
      var cols := CopyColumns(trows[i].columns);
      var next := rows + [Row(cols)];
      assert next[..i] == rows && next[i] == Row(cols);
      assert trows[..i + 1][..i] == trows[..i];
      assert SkeletonRows(next) == SkeletonRows(rows) + [RowValue(SkeletonColumns(cols))];
      assert StripRows(trows[..i + 1]) == StripRows(trows[..i]) + [RowValue(StripColumns(trows[i].columns))];
      assert PreorderRows(next) == before + PreorderColumns(cols);
      assert ValuePreorderRows(trows[..i + 1]) == ValuePreorderRows(trows[..i]) + ValuePreorderColumns(trows[i].columns);
      DistinctConcat(before, PreorderColumns(cols));
      CopiedConcat(before, ValuePreorderRows(trows[..i]), PreorderColumns(cols), ValuePreorderColumns(trows[i].columns));
      rows := next;
    }
    assert trows[..|trows|] == trows;
  }

  /** The copy of one row's columns. */
  method CopyColumns(tcols: seq<ColumnValue>) returns (cols: seq<Column>)
    ensures ForestColumns(cols)
    ensures SkeletonColumns(cols) == StripColumns(tcols)
    ensures Copied(PreorderColumns(cols), ValuePreorderColumns(tcols))
    ensures Distinct(PreorderColumns(cols))
    ensures forall c | c in PreorderColumns(cols) :: fresh(c) && allocated(c)
    decreases tcols, 1
  {
    cols := [];
    for j := 0 to |tcols|
      invariant ForestColumns(cols) && |cols| == j
      invariant SkeletonColumns(cols) == StripColumns(tcols[..j])
      invariant Copied(PreorderColumns(cols), ValuePreorderColumns(tcols[..j]))
      invariant Distinct(PreorderColumns(cols))
      invariant forall c | c in PreorderColumns(cols) :: fresh(c) && allocated(c)
    {
      ghost var before := PreorderColumns(cols);
      assert forall c | c in Elems(before) :: allocated(c);
      var col := CopyColumn(tcols[j]);
      var next := cols + [col];
      assert next[..j] == cols && next[j] == col;
      assert tcols[..j + 1][..j] == tcols[..j];
      assert SkeletonColumns(next) == SkeletonColumns(cols) + [SkeletonColumn(col)];
      assert StripColumns(tcols[..j + 1]) == StripColumns(tcols[..j]) + [StripColumn(tcols[j])];
      assert PreorderColumns(next) == before + PreorderColumn(col);
      assert ValuePreorderColumns(tcols[..j + 1]) == ValuePreorderColumns(tcols[..j]) + ValuePreorderColumn(tcols[j]);
      DistinctConcat(before, PreorderColumn(col));
      CopiedConcat(before, ValuePreorderColumns(tcols[..j]), PreorderColumn(col), ValuePreorderColumn(tcols[j]));
      cols := next;
    }
    assert tcols[..|tcols|] == tcols;
  }

  /** The copy of one column and everything nested in it. */
  method CopyColumn(tc: ColumnValue) returns (col: Column)
    ensures Tree(col)
    ensures SkeletonColumn(col) == StripColumn(tc)
    ensures Copied(PreorderColumn(col), ValuePreorderColumn(tc))
    ensures Distinct(PreorderColumn(col))
    ensures forall c | c in PreorderColumn(col) :: fresh(c) && allocated(c)
    decreases tc, 0
  {
    var sub := CopyNested(tc.nested);
    assert forall c | c in Elems(PreorderNested(sub)) :: allocated(c);
    col := new Column(sub, tc.widgets);
    assert PreorderColumn(col) == [col] + PreorderNested(sub);
    DistinctConcat([col], PreorderNested(sub));
    CopiedConcat([col], [tc], PreorderNested(sub), ValuePreorderNested(tc.nested));
  }
}
