/**
 Tables as the feature script sees them after `pd.read_csv(..., index_col=ID_COL)`:
 an ordered list of typed columns and an ordered list of rows, each row carrying
 its index key and its cells by column name. A name a row does not carry reads
 as NaN, which is how `pd.concat` fills a column one of its inputs lacks.
 */
module Tables {
  import opened Matrices

  /** pandas dtype of a column; the classifier only asks whether it is `object`. */
  datatype DType = Object | Int64 | Float64 | Bool | OtherDType(name: string)

  datatype Column = Column(name: string, dtype: DType)

  datatype Row = Row(key: string, cells: map<string, Cell>)

  datatype Table = Table(columns: seq<Column>, rows: seq<Row>)

  function Names(cols: seq<Column>): (ns: seq<string>)
    ensures |ns| == |cols| && forall i :: 0 <= i < |cols| ==> ns[i] == cols[i].name
  {
    seq(|cols|, i requires 0 <= i < |cols| => cols[i].name)
  }

  lemma NamesAppend(a: seq<Column>, b: seq<Column>)
    ensures Names(a + b) == Names(a) + Names(b)
  {
  }

  predicate Distinct(ns: seq<string>) {
    forall i, j :: 0 <= i < j < |ns| ==> ns[i] != ns[j]
  }

  /** No two columns share a name. */
  predicate DistinctNames(cols: seq<Column>) {
    Distinct(Names(cols))
  }

  /** `pd.read_csv` renames repeated header names, so a loaded table never has two columns of one name. */
  predicate WellFormed(t: Table) {
    DistinctNames(t.columns)
  }

  predicate HasColumn(t: Table, name: string) {
    name in Names(t.columns)
  }

  function Lookup(r: Row, name: string): Cell {
    if name in r.cells then r.cells[name] else NaN
  }

  /** `t[name].values`: the column's cell in every row, in row order. */
  function ColumnValues(t: Table, name: string): (v: seq<Cell>)
    requires HasColumn(t, name)
    ensures |v| == |t.rows| && forall i :: 0 <= i < |v| ==> v[i] == Lookup(t.rows[i], name)
  {
    seq(|t.rows|, i requires 0 <= i < |t.rows| => Lookup(t.rows[i], name))
  }

  /** The columns other than `name`, in their original order. */
  function RemoveNamed(cols: seq<Column>, name: string): (r: seq<Column>)
    ensures forall c :: c in r <==> c in cols && c.name != name
    ensures DistinctNames(cols) ==> DistinctNames(r)
  {
    if cols == [] then []
    else
      var rest := RemoveNamed(cols[1..], name);
      assert cols == [cols[0]] + cols[1..];
      DistinctNamesCons(cols[0], cols[1..]);
      if cols[0].name == name then rest
      else
        DistinctNamesCons(cols[0], rest);
        [cols[0]] + rest
  }

  /** A column list with a column in front has distinct names exactly when the
      rest has and no column of the rest shares the front column's name. */
  lemma DistinctNamesCons(c: Column, rest: seq<Column>)
    ensures DistinctNames([c] + rest) <==> DistinctNames(rest) && forall d :: d in rest ==> d.name != c.name
  {
    var cols := [c] + rest;
    assert Names(cols)[1..] == Names(rest);
    if DistinctNames(cols) {
      forall d | d in rest ensures d.name != c.name {
        var j :| 0 <= j < |rest| && rest[j] == d;
        assert Names(cols)[0] == c.name && Names(cols)[j + 1] == d.name;
      }
    }
  }

  lemma {:induction false} RemoveAbsent(cols: seq<Column>, name: string)
    requires forall c :: c in cols ==> c.name != name
    ensures RemoveNamed(cols, name) == cols
  {
    if cols != [] {
      assert cols[0] in cols && forall c :: c in cols[1..] ==> c in cols;
      RemoveAbsent(cols[1..], name);
      assert RemoveNamed(cols, name) == [cols[0]] + RemoveNamed(cols[1..], name);
      assert [cols[0]] + cols[1..] == cols;
    }
  }

  /** With distinct names, dropping the first column's name leaves the rest. */
  lemma RemoveFirst(cols: seq<Column>, name: string)
    requires DistinctNames(cols) && cols != [] && cols[0].name == name
    ensures RemoveNamed(cols, name) == cols[1..]
  {
    forall c | c in cols[1..] ensures c.name != name {
      var j :| 0 <= j < |cols[1..]| && cols[1..][j] == c;
      assert cols[j + 1] == c;
    }
    RemoveAbsent(cols[1..], name);
  }

  /** Dropping a name that labels column `p` of a table with distinct names
      removes exactly that column and keeps the others in order. */
  lemma {:induction false} RemoveAt(cols: seq<Column>, name: string, p: nat)
    requires DistinctNames(cols) && p < |cols| && cols[p].name == name
    ensures RemoveNamed(cols, name) == cols[..p] + cols[p + 1..]
  {
    if p == 0 {
      RemoveFirst(cols, name);
      assert cols[..0] + cols[1..] == cols[1..];
    } else {
      assert cols[0].name != name && DistinctNames(cols[1..]);
      RemoveAt(cols[1..], name, p - 1);
      SkipAtCons(cols, p);
    }
  }

  lemma SkipAtCons<T>(s: seq<T>, p: nat)
    requires 0 < p < |s|
    ensures [s[0]] + (s[1..][..p - 1] + s[1..][p..]) == s[..p] + s[p + 1..]
  {
    assert s[1..][..p - 1] == s[1..p] && s[1..][p..] == s[p + 1..];
    assert [s[0]] + s[1..p] == s[..p];
  }

  /** `t.drop(name, axis=1)`: the column leaves the column list and every row;
      no row is added or removed. pandas raises KeyError for an unknown name. */
  function DropColumn(t: Table, name: string): (r: Table)
    requires HasColumn(t, name)
    ensures r.columns == RemoveNamed(t.columns, name) && !HasColumn(r, name)
    ensures WellFormed(t) ==> WellFormed(r)
    ensures |r.rows| == |t.rows|
    ensures forall i :: 0 <= i < |r.rows| ==> r.rows[i].key == t.rows[i].key
    ensures forall i, x :: 0 <= i < |r.rows| && x != name ==> Lookup(r.rows[i], x) == Lookup(t.rows[i], x)
  {
    Table(RemoveNamed(t.columns, name), seq(|t.rows|, i requires 0 <= i < |t.rows| => Row(t.rows[i].key, t.rows[i].cells - {name})))
  }

  /** The columns of `cols` whose names are not in `seen`, in order. */
  function NewColumns(cols: seq<Column>, seen: seq<string>): (r: seq<Column>)
    ensures forall c :: c in r <==> c in cols && c.name !in seen
  {
    if cols == [] then []
    else
      assert forall c :: c in cols[1..] ==> c in cols;
      (if cols[0].name in seen then [] else [cols[0]]) + NewColumns(cols[1..], seen)
  }

  /** `pd.concat([a, b], axis=0)`: the rows of `a` and then the rows of `b`, over
      the union of the two column lists (those of `a` first). No schema check is
      made: a cell one side lacks reads as NaN. This model keeps, for each
      column, the dtype it has in the first table that holds it; pandas may
      widen it instead, but the script never reads these dtypes. */
  function Concat(a: Table, b: Table): (r: Table)
    ensures |r.rows| == |a.rows| + |b.rows|
    ensures r.rows[..|a.rows|] == a.rows && r.rows[|a.rows|..] == b.rows
    ensures forall x :: HasColumn(r, x) <==> HasColumn(a, x) || HasColumn(b, x)
  {
    var extra := NewColumns(b.columns, Names(a.columns));
    NamesAppend(a.columns, extra);
    assert forall x :: HasColumn(b, x) && x !in Names(a.columns) ==> x in Names(extra) by {
      forall x | HasColumn(b, x) && x !in Names(a.columns) ensures x in Names(extra) {
        var j :| 0 <= j < |b.columns| && b.columns[j].name == x;
        assert b.columns[j] in b.columns;
        var k :| 0 <= k < |extra| && extra[k] == b.columns[j];
        assert Names(extra)[k] == x;
      }
    }
    assert forall x :: x in Names(extra) ==> HasColumn(b, x) by {
      forall x | x in Names(extra) ensures HasColumn(b, x) {
        var k :| 0 <= k < |extra| && Names(extra)[k] == x;
        assert extra[k] in extra;
        var j :| 0 <= j < |b.columns| && b.columns[j] == extra[k];
        assert Names(b.columns)[j] == x;
      }
    }
    var r := Table(a.columns + extra, a.rows + b.rows);
    assert r.rows[..|a.rows|] == a.rows;
    r
  }

  /** `t[names].values`: for every row, the cells of `names` in that order.
      pandas raises KeyError if a name is not a column. */
  function Block(t: Table, names: seq<string>): (m: Matrix)
    requires forall x :: x in names ==> HasColumn(t, x)
    ensures m.Valid() && m.width == |names| && |m.rows| == |t.rows|
    ensures forall i, j :: 0 <= i < |m.rows| && 0 <= j < |names| ==> m.rows[i][j] == Lookup(t.rows[i], names[j])
  {
    Matrix(|names|, seq(|t.rows|, i requires 0 <= i < |t.rows| =>
      seq(|names|, j requires 0 <= j < |names| => Lookup(t.rows[i], names[j]))))
  }

  /** A block of the stacked table holds the rows of `a` first and then those
      of `b`, each in table order. */
  lemma ConcatBlockRows(a: Table, b: Table, names: seq<string>)
    requires forall x :: x in names ==> HasColumn(a, x)
    ensures forall x :: x in names ==> HasColumn(Concat(a, b), x)
    ensures var m := Block(Concat(a, b), names);
            && (forall i, j :: 0 <= i < |a.rows| && 0 <= j < |names| ==> m.rows[i][j] == Lookup(a.rows[i], names[j]))
            && (forall i, j :: 0 <= i < |b.rows| && 0 <= j < |names| ==> m.rows[|a.rows| + i][j] == Lookup(b.rows[i], names[j]))
  {
    var r := Concat(a, b);
    assert forall i :: 0 <= i < |a.rows| ==> r.rows[i] == a.rows[i] by {
      assert r.rows[..|a.rows|] == a.rows;
    }
    assert forall i :: 0 <= i < |b.rows| ==> r.rows[|a.rows| + i] == b.rows[i] by {
      assert r.rows[|a.rows|..] == b.rows;
    }
  }

  /** The cells of one matrix row under their column names. */
  function Zip(names: seq<string>, vals: seq<Cell>): (m: map<string, Cell>)
    requires Distinct(names) && |vals| == |names|
    ensures forall x :: x in m <==> x in names
    ensures forall j :: 0 <= j < |names| ==> m[names[j]] == vals[j]
  {
    map j | 0 <= j < |names| :: names[j] := vals[j]
  }

  /** `t[names] = m`: the cells of `names` in row i become row i of `m`; every
      other cell, the keys and the column list stay as they were. pandas demands
      that the shape of `m` matches. */
  function Assign(t: Table, names: seq<string>, m: Matrix): (r: Table)
    requires Distinct(names) && forall x :: x in names ==> HasColumn(t, x)
    requires m.Valid() && m.width == |names| && |m.rows| == |t.rows|
    ensures r.columns == t.columns && |r.rows| == |t.rows|
    ensures forall i :: 0 <= i < |r.rows| ==> r.rows[i].key == t.rows[i].key
    ensures forall i, j :: 0 <= i < |r.rows| && 0 <= j < |names| ==> Lookup(r.rows[i], names[j]) == m.rows[i][j]
    ensures forall i, x :: 0 <= i < |r.rows| && x !in names ==> Lookup(r.rows[i], x) == Lookup(t.rows[i], x)
  {
    Table(t.columns, seq(|t.rows|, i requires 0 <= i < |t.rows| =>
      Row(t.rows[i].key, t.rows[i].cells + Zip(names, m.rows[i]))))
  }

  /** Writing a block and reading it back gives the block: `t[names] = m; t[names].values == m`. */
  lemma AssignThenBlock(t: Table, names: seq<string>, m: Matrix)
    requires Distinct(names) && forall x :: x in names ==> HasColumn(t, x)
    requires m.Valid() && m.width == |names| && |m.rows| == |t.rows|
    ensures Block(Assign(t, names, m), names) == m
  {
    var b := Block(Assign(t, names, m), names);
    forall i | 0 <= i < |b.rows| ensures b.rows[i] == m.rows[i] {
    }
  }

  /** Writing `names` leaves the block of any names disjoint from them as it was. */
  lemma AssignKeepsOtherBlock(t: Table, names: seq<string>, m: Matrix, others: seq<string>)
    requires Distinct(names) && forall x :: x in names ==> HasColumn(t, x)
    requires m.Valid() && m.width == |names| && |m.rows| == |t.rows|
    requires forall x :: x in others ==> HasColumn(t, x) && x !in names
    ensures forall x :: x in others ==> HasColumn(Assign(t, names, m), x)
    ensures Block(Assign(t, names, m), others) == Block(t, others)
  {
    var b, b' := Block(Assign(t, names, m), others), Block(t, others);
    forall i | 0 <= i < |b.rows| ensures b.rows[i] == b'.rows[i] {
    }
  }

  /** A pandas DataFrame updated in place by `drop(..., inplace=True)` and by
      column assignment. */
  class DataFrame {
    var columns: seq<Column>
    var rows: seq<Row>

    function Value(): Table
      reads this
    {
      Table(columns, rows)
    }

    constructor (t: Table)
      ensures Value() == t
    {
      columns, rows := t.columns, t.rows;
    }

    /** `df.drop(name, axis=1, inplace=True)` */
    method Drop(name: string)
      requires HasColumn(Value(), name)
      modifies this
      ensures Value() == DropColumn(old(Value()), name)
    {
      var t := DropColumn(Value(), name);
      columns, rows := t.columns, t.rows;
    }

    /** `df[names] = m` */
    method AssignColumns(names: seq<string>, m: Matrix)
      requires Distinct(names) && forall x :: x in names ==> HasColumn(Value(), x)
      requires m.Valid() && m.width == |names| && |m.rows| == |rows|
      modifies this
      ensures Value() == Assign(old(Value()), names, m)
    {
      var t := Assign(Value(), names, m);
      columns, rows := t.columns, t.rows;
    }
  }
}
