/**
 The column classifier: the two list comprehensions that split the train
 table's columns into `cat_cols` (dtype `object`) and `num_cols` (any other
 dtype), each in the table's column order. Only the train columns are an
 input, so the test table cannot influence the split.
 */
module Columns {
  import opened Tables

  /** `[x for x in trn.columns if trn[x].dtype == object]` */
  function CatCols(cols: seq<Column>): (r: seq<string>)
    ensures forall x :: x in r <==> exists c :: c in cols && c.name == x && c.dtype == Object
    ensures DistinctNames(cols) ==> Distinct(r)
  {
    if cols == [] then []
    else
      var rest := CatCols(cols[1..]);
      assert forall c :: c in cols[1..] ==> c in cols;
      if cols[0].dtype == Object then
        assert DistinctNames(cols) ==> cols[0].name !in rest && DistinctNames(cols[1..]) by {
          if DistinctNames(cols) {
            assert forall c :: c in cols[1..] ==> c.name != cols[0].name;
          }
        }
        [cols[0].name] + rest
      else
        assert DistinctNames(cols) ==> DistinctNames(cols[1..]);
        rest
  }

  /** `[x for x in trn.columns if trn[x].dtype != object]` */
  function NumCols(cols: seq<Column>): (r: seq<string>)
    ensures forall x :: x in r <==> exists c :: c in cols && c.name == x && c.dtype != Object
    ensures DistinctNames(cols) ==> Distinct(r)
  {
    if cols == [] then []
    else
      var rest := NumCols(cols[1..]);
      assert forall c :: c in cols[1..] ==> c in cols;
      if cols[0].dtype != Object then
        assert DistinctNames(cols) ==> cols[0].name !in rest && DistinctNames(cols[1..]) by {
          if DistinctNames(cols) {
            assert forall c :: c in cols[1..] ==> c.name != cols[0].name;
          }
        }
        [cols[0].name] + rest
      else
        assert DistinctNames(cols) ==> DistinctNames(cols[1..]);
        rest
  }

  /** Both lists hold column names only. */
  lemma ClassifiedAreColumns(cols: seq<Column>)
    ensures forall x :: x in CatCols(cols) || x in NumCols(cols) ==> x in Names(cols)
  {
    assert forall c :: c in cols ==> c.name in Names(cols) by {
      forall c | c in cols ensures c.name in Names(cols) {
        var j :| 0 <= j < |cols| && cols[j] == c;
        assert Names(cols)[j] == c.name;
      }
    }
  }

  /** `s` is a riffle of `a` and `b`: every element of `s` is taken, in turn,
      from the front of `a` or of `b`, and both are used up. So `a` and `b`
      each keep the order they have in `s`, and each position of `s` goes to
      exactly one of them. */
  ghost predicate Interleaves(s: seq<string>, a: seq<string>, b: seq<string>)
    decreases |s|
  {
    if s == [] then a == [] && b == []
    else
      || (a != [] && a[0] == s[0] && Interleaves(s[1..], a[1..], b))
      || (b != [] && b[0] == s[0] && Interleaves(s[1..], a, b[1..]))
  }

  /** The column names are a riffle of `cat_cols` and `num_cols`. */
  lemma {:induction false} ClassifyInterleaves(cols: seq<Column>)
    ensures Interleaves(Names(cols), CatCols(cols), NumCols(cols))
  {
    if cols != [] {
      ClassifyInterleaves(cols[1..]);
      assert Names(cols)[1..] == Names(cols[1..]);
      if cols[0].dtype == Object {
        assert CatCols(cols) == [cols[0].name] + CatCols(cols[1..]);
        assert CatCols(cols)[1..] == CatCols(cols[1..]);
      } else {
        assert NumCols(cols) == [cols[0].name] + NumCols(cols[1..]);
        assert NumCols(cols)[1..] == NumCols(cols[1..]);
      }
    }
  }

  lemma {:induction false} InterleavesMultiset(s: seq<string>, a: seq<string>, b: seq<string>)
    requires Interleaves(s, a, b)
    ensures multiset(s) == multiset(a) + multiset(b)
  {
    if s != [] {
      assert s == [s[0]] + s[1..];
      if a != [] && a[0] == s[0] && Interleaves(s[1..], a[1..], b) {
        InterleavesMultiset(s[1..], a[1..], b);
        assert a == [a[0]] + a[1..];
      } else {
        InterleavesMultiset(s[1..], a, b[1..]);
        assert b == [b[0]] + b[1..];
      }
    }
  }

  /** Every name is classified exactly once: together the two lists hold the
      column names with their multiplicities, and with distinct names no name
      is in both. */
  lemma ClassifyPartition(cols: seq<Column>)
    ensures multiset(CatCols(cols)) + multiset(NumCols(cols)) == multiset(Names(cols))
    ensures DistinctNames(cols) ==> forall x :: !(x in CatCols(cols) && x in NumCols(cols))
  {
    ClassifyInterleaves(cols);
    InterleavesMultiset(Names(cols), CatCols(cols), NumCols(cols));
  }
}
