/**
 `generate_feature`: take the labels and the train row count, drop the label
 column, classify the remaining train columns, stack train over test,
 normalize the numeric block in place, one-hot encode the categorical block,
 place the two blocks side by side, write the feature names, and cut the
 matrix back into a labelled train part and an unlabelled test part.

 The normalizer and the encoder are parameters: only the shape they promise is
 known (same rows and width for the normalizer; one output row per input row,
 of the encoder's own width, for the encoder). `save_data` is modelled by what
 it is handed.
 */
module Pipeline {
  import opened Matrices
  import opened Tables
  import opened Columns
  import opened Header

  /** `OneHotEncoder(min_obs=10)` */
  const MinObs: nat := 10

  datatype Option<T> = None | Some(value: T)

  /** pandas' KeyError for a missing column. */
  datatype Error = KeyError(column: string)

  datatype Result<T> = Ok(value: T) | Err(error: Error)

  /** The arguments of one `save_data(X, y, path)` call. */
  datatype Saved = Saved(features: Matrix, labels: Option<seq<Cell>>)

  /** What a run produces: the feature names in header order and the two saved parts. */
  datatype Output = Output(header: seq<string>, train: Saved, test: Saved)

  /** `Normalizer().fit_transform`: same number of rows and columns out as in. */
  ghost predicate KeepsShape(nm: Matrix -> Matrix) {
    forall m: Matrix {:trigger nm(m)} :: m.Valid() ==> nm(m).Valid() && nm(m).width == m.width && |nm(m).rows| == |m.rows|
  }

  /** `OneHotEncoder(min_obs).fit_transform`: one row out per row in, all of the
      encoder's own width `k`. */
  ghost predicate KeepsRows(ohe: (nat, Matrix) -> Matrix) {
    forall m: Matrix {:trigger ohe(MinObs, m)} :: m.Valid() ==> ohe(MinObs, m).Valid() && |ohe(MinObs, m).rows| == |m.rows|
  }

  /** The train table after `trn.drop(target, axis=1, inplace=True)`. */
  function Features0(trn: Table, target: string): (r: Table)
    requires WellFormed(trn) && HasColumn(trn, target)
    ensures WellFormed(r) && |r.rows| == |trn.rows|
  {
    DropColumn(trn, target)
  }

  /** `pd.concat([trn, tst], axis=0)` after the drop. */
  function Combined(trn: Table, tst: Table, target: string): (df: Table)
    requires WellFormed(trn) && HasColumn(trn, target)
    ensures |df.rows| == |trn.rows| + |tst.rows|
    ensures forall x :: x in Names(Features0(trn, target).columns) ==> HasColumn(df, x)
  {
    var df := Concat(Features0(trn, target), tst);
    assert forall x :: x in Names(Features0(trn, target).columns) ==> HasColumn(Features0(trn, target), x);
    df
  }

  /** The block handed to the normalizer: `df[num_cols].values`. */
  function NumericInput(trn: Table, tst: Table, target: string): (m: Matrix)
    requires WellFormed(trn) && HasColumn(trn, target)
    ensures m.Valid() && |m.rows| == |trn.rows| + |tst.rows|
    ensures m.width == |NumCols(Features0(trn, target).columns)|
  {
    var cols := Features0(trn, target).columns;
    Block(Combined(trn, tst, target), NumCols(cols))
  }

  /** The block handed to the encoder: the cells of `df[cat_cols]`, as
      `df[cat_cols].values` holds them; column labels and the row index are
      not part of it. */
  function CategoricalInput(trn: Table, tst: Table, target: string): (m: Matrix)
    requires WellFormed(trn) && HasColumn(trn, target)
    ensures m.Valid() && |m.rows| == |trn.rows| + |tst.rows|
    ensures m.width == |CatCols(Features0(trn, target).columns)|
  {
    var cols := Features0(trn, target).columns;
    Block(Combined(trn, tst, target), CatCols(cols))
  }

  /** The matrix `sparse.hstack` builds: the normalizer's output on the numeric
      block beside the encoder's output on the categorical block. */
  function Assembled(trn: Table, tst: Table, target: string, nm: Matrix -> Matrix, ohe: (nat, Matrix) -> Matrix): (x: Matrix)
    requires WellFormed(trn) && KeepsShape(nm) && KeepsRows(ohe) && HasColumn(trn, target)
    ensures x.Valid() && |x.rows| == |trn.rows| + |tst.rows|
    ensures x.width == |NumCols(Features0(trn, target).columns)| + ohe(MinObs, CategoricalInput(trn, tst, target)).width
  {
    HStack(nm(NumericInput(trn, tst, target)), ohe(MinObs, CategoricalInput(trn, tst, target)))
  }

  /** `generate_feature` as a function of the two loaded tables: the header
      names, and what is handed to `save_data` for train (rows before `n_trn`,
      with the label column's values) and for test (the rest, no labels). It
      fails exactly when the train table has no label column (`trn[TARGET_COL]`). */
  function Features(trn: Table, tst: Table, target: string, nm: Matrix -> Matrix, ohe: (nat, Matrix) -> Matrix): (r: Result<Output>)
    requires WellFormed(trn) && KeepsShape(nm) && KeepsRows(ohe)
    ensures r.Err? <==> !HasColumn(trn, target)
    ensures r.Err? ==> r.error == KeyError(target)
  {
    if !HasColumn(trn, target) then Err(KeyError(target))
    else
      var nTrn := |trn.rows|;
      var x := Assembled(trn, tst, target, nm, ohe);
      var k := ohe(MinObs, CategoricalInput(trn, tst, target)).width;
      Ok(Output(NumCols(Features0(trn, target).columns) + OheNames(k),
                Saved(RowsTo(x, nTrn), Some(ColumnValues(trn, target))),
                Saved(RowsFrom(x, nTrn), None)))
  }

  /** The script's in-place steps give the blocks `Assembled` places side by
      side: after `df[num_cols]` is overwritten with the normalizer's output,
      reading `df[num_cols]` back gives that output, and `df[cat_cols]` is
      still the categorical block of the combined table, because no column is
      in both lists. */
  lemma {:induction false} InPlaceNormalize(trn: Table, tst: Table, target: string, nm: Matrix -> Matrix)
    requires WellFormed(trn) && KeepsShape(nm) && HasColumn(trn, target)
    ensures var df := Combined(trn, tst, target);
            var num := NumCols(Features0(trn, target).columns);
            var cat := CatCols(Features0(trn, target).columns);
            var df' := Assign(df, num, nm(NumericInput(trn, tst, target)));
            && (forall x :: x in num || x in cat ==> HasColumn(df, x) && HasColumn(df', x))
            && Block(df', num) == nm(NumericInput(trn, tst, target))
            && Block(df', cat) == CategoricalInput(trn, tst, target)
  {
    var trn' := Features0(trn, target);
    var cat, num := CatCols(trn'.columns), NumCols(trn'.columns);
    var df := Combined(trn, tst, target);
    var a := nm(NumericInput(trn, tst, target));
    ClassifyPartition(trn'.columns);
    AssignThenBlock(df, num, a);
    AssignKeepsOtherBlock(df, num, a, cat);
  }

  /** The header lists `num_cols` and then `ohe0 .. ohe{k-1}`, where `k` is the
      encoder's output width; it is exactly as long as either saved matrix is
      wide; with no encoded column it is `num_cols` alone. */
  lemma HeaderMatchesWidth(trn: Table, tst: Table, target: string, nm: Matrix -> Matrix, ohe: (nat, Matrix) -> Matrix)
    requires WellFormed(trn) && KeepsShape(nm) && KeepsRows(ohe) && HasColumn(trn, target)
    ensures var o := Features(trn, tst, target, nm, ohe).value;
            var num := NumCols(Features0(trn, target).columns);
            var k := ohe(MinObs, CategoricalInput(trn, tst, target)).width;
            && o.header == num + OheNames(k)
            && |o.header| == |num| + k == o.train.features.width == o.test.features.width
            && o.train.features.Valid() && o.test.features.Valid()
            && (k == 0 ==> o.header == num)
  {
    var o := Features(trn, tst, target, nm, ohe).value;
    var x := Assembled(trn, tst, target, nm, ohe);
    assert o.train.features == RowsTo(x, |trn.rows|);
    assert o.test.features == RowsFrom(x, |trn.rows|);
  }

  /** The cut at `n_trn` falls inside the matrix: the train part has one row per
      train row, the test part one per test row, and the two parts are the
      assembled rows, each once, in order. */
  lemma SplitAtTrainCount(trn: Table, tst: Table, target: string, nm: Matrix -> Matrix, ohe: (nat, Matrix) -> Matrix)
    requires WellFormed(trn) && KeepsShape(nm) && KeepsRows(ohe) && HasColumn(trn, target)
    ensures var o := Features(trn, tst, target, nm, ohe).value;
            var x := Assembled(trn, tst, target, nm, ohe);
            && |x.rows| == |trn.rows| + |tst.rows|
            && |o.train.features.rows| == |trn.rows|
            && |o.test.features.rows| == |tst.rows|
            && o.train.features.rows + o.test.features.rows == x.rows
  {
    SplitRows(Assembled(trn, tst, target, nm, ohe), |trn.rows|);
  }

  /** The train part carries the label vector, one label per train row, the
      i-th being train row i's label; the test part carries none. */
  lemma LabelsAligned(trn: Table, tst: Table, target: string, nm: Matrix -> Matrix, ohe: (nat, Matrix) -> Matrix)
    requires WellFormed(trn) && KeepsShape(nm) && KeepsRows(ohe) && HasColumn(trn, target)
    ensures var o := Features(trn, tst, target, nm, ohe).value;
            && o.train.labels.Some? && o.test.labels.None?
            && |o.train.labels.value| == |o.train.features.rows| == |trn.rows|
            && forall i :: 0 <= i < |trn.rows| ==> o.train.labels.value[i] == Lookup(trn.rows[i], target)
  {
  }

  /** The combined table, and so each block handed to a collaborator, holds
      the train rows first and then the test rows, each in table order. */
  lemma CombinedRowOrder(trn: Table, tst: Table, target: string)
    requires WellFormed(trn) && HasColumn(trn, target)
    ensures var num := NumCols(Features0(trn, target).columns);
            var cat := CatCols(Features0(trn, target).columns);
            var nIn, cIn := NumericInput(trn, tst, target), CategoricalInput(trn, tst, target);
            && (forall i, j :: 0 <= i < |trn.rows| && 0 <= j < |num| ==> nIn.rows[i][j] == Lookup(trn.rows[i], num[j]))
            && (forall i, j :: 0 <= i < |tst.rows| && 0 <= j < |num| ==> nIn.rows[|trn.rows| + i][j] == Lookup(tst.rows[i], num[j]))
            && (forall i, j :: 0 <= i < |trn.rows| && 0 <= j < |cat| ==> cIn.rows[i][j] == Lookup(trn.rows[i], cat[j]))
            && (forall i, j :: 0 <= i < |tst.rows| && 0 <= j < |cat| ==> cIn.rows[|trn.rows| + i][j] == Lookup(tst.rows[i], cat[j]))
  {
    var trn' := Features0(trn, target);
    var num, cat := NumCols(trn'.columns), CatCols(trn'.columns);
    ClassifiedAreColumns(trn'.columns);
    ConcatBlockRows(trn', tst, num);
    ConcatBlockRows(trn', tst, cat);
  }

  /** Row order survives assembly and the cut: train output row i is row i of
      the normalizer's output followed by row i of the encoder's, and test
      output row i is row n_trn + i of each. */
  lemma OutputRowOrder(trn: Table, tst: Table, target: string, nm: Matrix -> Matrix, ohe: (nat, Matrix) -> Matrix)
    requires WellFormed(trn) && KeepsShape(nm) && KeepsRows(ohe) && HasColumn(trn, target)
    ensures var o := Features(trn, tst, target, nm, ohe).value;
            var a := nm(NumericInput(trn, tst, target));
            var b := ohe(MinObs, CategoricalInput(trn, tst, target));
            && (forall i :: 0 <= i < |trn.rows| ==> o.train.features.rows[i] == a.rows[i] + b.rows[i])
            && (forall i :: 0 <= i < |tst.rows| ==> o.test.features.rows[i] == a.rows[|trn.rows| + i] + b.rows[|trn.rows| + i])
  {
    var o := Features(trn, tst, target, nm, ohe).value;
    var a := nm(NumericInput(trn, tst, target));
    var b := ohe(MinObs, CategoricalInput(trn, tst, target));
    var x := Assembled(trn, tst, target, nm, ohe);
    assert x == HStack(a, b);
    assert o.train.features == RowsTo(x, |trn.rows|) && o.test.features == RowsFrom(x, |trn.rows|);
    SplitHStack(a, b, |trn.rows|);
  }

  /** A corollary of `HeaderMatchesWidth`: the classification reads only the
      train table, so whatever the test table, the header starts with the same
      `num_cols`, and the normalizer and the encoder are handed blocks of the
      same widths. The encoder's own output width may still depend on the test
      rows, since it is fitted on the stacked table. */
  lemma ClassificationIgnoresTest(trn: Table, tst1: Table, tst2: Table, target: string, nm: Matrix -> Matrix, ohe: (nat, Matrix) -> Matrix)
    requires WellFormed(trn) && KeepsShape(nm) && KeepsRows(ohe) && HasColumn(trn, target)
    ensures var num := NumCols(Features0(trn, target).columns);
            && Features(trn, tst1, target, nm, ohe).value.header[..|num|] == num
            && Features(trn, tst2, target, nm, ohe).value.header[..|num|] == num
    ensures NumericInput(trn, tst1, target).width == NumericInput(trn, tst2, target).width
    ensures CategoricalInput(trn, tst1, target).width == CategoricalInput(trn, tst2, target).width
  {
    HeaderMatchesWidth(trn, tst1, target, nm, ohe);
    HeaderMatchesWidth(trn, tst2, target, nm, ohe);
  }

  /** The header file read back line by line lists the feature names, as many
      as the saved matrices have columns, provided no numeric column name holds
      a line break (the `ohe` names never do). */
  lemma HeaderFileMatchesWidth(trn: Table, tst: Table, target: string, nm: Matrix -> Matrix, ohe: (nat, Matrix) -> Matrix)
    requires WellFormed(trn) && KeepsShape(nm) && KeepsRows(ohe) && HasColumn(trn, target)
    requires forall x :: x in NumCols(Features0(trn, target).columns) ==> NoLineBreak(x)
    ensures var o := Features(trn, tst, target, nm, ohe).value;
            && Lines(HeaderText(o.header)) == o.header
            && |Lines(HeaderText(o.header))| == o.train.features.width == o.test.features.width
  {
    var o := Features(trn, tst, target, nm, ohe).value;
    var trn' := Features0(trn, target);
    var num := NumCols(trn'.columns);
    var k := ohe(MinObs, CategoricalInput(trn, tst, target)).width;
    HeaderMatchesWidth(trn, tst, target, nm, ohe);
    OheNamesDistinct(k);
    forall i | 0 <= i < |o.header| ensures NoLineBreak(o.header[i]) {
      if i < |num| {
        assert num[i] in num;
      } else {
        assert o.header[i] == OheNames(k)[i - |num|];
      }
    }
    HeaderRoundTrip(o.header);
  }

  /** The script, step by step on mutable frames: `trn` loses its label column
      in place, the combined frame has its numeric columns overwritten in place,
      and the header file is written one name per line before the two parts are
      handed to `save_data`. On the KeyError nothing is changed or written. */
  method GenerateFeature(trn: DataFrame, tst: DataFrame, target: string, nm: Matrix -> Matrix, ohe: (nat, Matrix) -> Matrix, headerFile: TextFile)
    returns (r: Result<(Saved, Saved)>)
    requires trn != tst
    requires WellFormed(trn.Value()) && KeepsShape(nm) && KeepsRows(ohe)
    modifies trn, headerFile
    ensures !HasColumn(old(trn.Value()), target) ==>
              r == Err(KeyError(target)) && trn.Value() == old(trn.Value()) && headerFile.text == old(headerFile.text)
    ensures HasColumn(old(trn.Value()), target) ==> trn.Value() == DropColumn(old(trn.Value()), target)
    ensures HasColumn(old(trn.Value()), target) ==>
              var o := Features(old(trn.Value()), old(tst.Value()), target, nm, ohe).value;
              r == Ok((o.train, o.test)) && headerFile.text == HeaderText(o.header)
  {
    if !HasColumn(trn.Value(), target) {
      return Err(KeyError(target));
    }
    ghost var t0, ts := trn.Value(), tst.Value();
    var y := ColumnValues(trn.Value(), target);
    var nTrn := |trn.rows|;

    trn.Drop(target);

    var cat := CatCols(trn.columns);
    var num := NumCols(trn.columns);

    var df := new DataFrame(Concat(trn.Value(), tst.Value()));
    InPlaceNormalize(t0, ts, target, nm);
    df.AssignColumns(num, nm(Block(df.Value(), num)));

    var xOhe := ohe(MinObs, Block(df.Value(), cat));
    var oheCols := OheNames(xOhe.width);

    var x := HStack(Block(df.Value(), num), xOhe);

    WriteHeader(headerFile, num + oheCols);

    r := Ok((Saved(RowsTo(x, nTrn), Some(y)), Saved(RowsFrom(x, nTrn), None)));
  }
}
