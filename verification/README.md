# Feature assembly for the `n1` feature set

This project models `generate_feature` in `src/generate_n1.py`. The script
builds the first feature set of a Kaggle pipeline from a train table and a
test table:

1. It reads the label column and the number of train rows.
2. It drops the label column from the train table in place.
3. It splits the remaining train columns into categorical columns (dtype
   `object`) and numeric columns (every other dtype).
4. It stacks the train table over the test table.
5. It overwrites the numeric block of the stacked table with the
   normalizer's output.
6. It one-hot encodes the categorical block and names the encoded columns
   `ohe0`, `ohe1`, ...
7. It places the numeric block and the encoded block side by side.
8. It writes the feature names, one per line, to the header file.
9. It cuts the matrix at the train row count: the train part is saved with
   the labels, the test part without.

Modules:

- `Matrices`: the feature matrix as a sequence of rows with a fixed width.
  It holds `sparse.hstack` and Python's row slices `X[:n]` and `X[n:]`,
  including the clamping Python applies when `n` is past the end.
- `Tables`: the loaded tables.
  - Columns are ordered and carry a dtype.
  - Each row carries its index key and a map from column name to cell. A
    name the row lacks reads as NaN.
  - `drop`, `pd.concat`, block read-out (`df[names].values`) and block
    assignment (`df[names] = m`) are functions.
  - The class `DataFrame` applies `drop` and block assignment in place.
- `Columns`: the two list comprehensions that classify the columns. It
  proves that they split the column names between them, keeping the order.
- `Header`: the `ohe{i}` names and the header file.
  - `TextFile` is a file opened for writing.
  - `WriteHeader` is the write loop, proved against the text it must
    produce.
  - The text read back line by line gives the names again.
- `Pipeline`:
  - `Features` is the whole function on values.
  - `GenerateFeature` is the same steps on mutable frames, proved to
    produce exactly what `Features` describes.
  - Lemmas state what the outputs promise: header length equals matrix
    width; the split falls at the train row count; labels line up with the
    train rows; row order is kept; classification reads only the train
    table; the header file round-trips.

The normalizer and the one-hot encoder come from another library. They are
parameters, constrained only by the shape they promise:

- `KeepsShape`: the normalizer returns the same number of rows and columns.
- `KeepsRows`: the encoder returns one row per input row, all of one width
  of its own choosing.

`save_data` is modelled by what it is handed: the matrix and the optional
label vector, returned as `Saved` values. The label column name comes from
`const.py`, which is not part of this model. It is the parameter `target`.

## Model

| member | source | states |
|---|---|---|
| Matrices.HStack | src/generate_n1.py:42 | the result is as wide as both blocks together and has their row count; each row cut at the first block's width gives back the two blocks' rows |
| Matrices.RowsTo | src/generate_n1.py:49 | `X[:n]` keeps the width and yields the first min(n, rows) rows unchanged |
| Matrices.RowsFrom | src/generate_n1.py:50 | `X[n:]` keeps the width and yields the rows from min(n, rows) on, in order |
| Matrices.SplitRows | src/generate_n1.py:49-50 | the two parts concatenate back to the whole matrix, so every row is saved exactly once, in order; with n inside the matrix the first part has n rows |
| Matrices.SplitHStack | src/generate_n1.py:42-50 | cutting the side-by-side matrix at n cuts both blocks at n: first-part row i is row i of each block, second-part row i is row n+i of each |
| Tables.ColumnValues | src/generate_n1.py:21 | the label vector has one entry per train row, the i-th being that row's label cell |
| Tables.RemoveNamed | src/generate_n1.py:24 | exactly the columns not of that name remain; distinct names stay distinct |
| Tables.RemoveAt | src/generate_n1.py:24 | with distinct names, dropping the name of column p removes exactly column p and keeps the rest in order |
| Tables.DropColumn | src/generate_n1.py:24 | the column is gone from the column list; no row is added or removed; keys and every other cell are unchanged |
| Tables.DataFrame.Drop | src/generate_n1.py:24 | the in-place drop leaves the frame holding exactly the dropped table |
| Tables.Concat | src/generate_n1.py:31 | the stacked table has the first table's rows and then the second's, unchanged, and a column exactly when either input has it |
| Tables.ConcatBlockRows | src/generate_n1.py:31-35 | every block read from the stacked table shows the train rows first and then the test rows, cell by cell |
| Tables.Block | src/generate_n1.py:35 | `df[names].values` is a well-shaped matrix with one column per name and one row per table row, each cell being that row's cell of that name |
| Tables.Zip | src/generate_n1.py:35 | one matrix row spread over the assigned names: each name gets its own cell and no other name is touched |
| Tables.Assign | src/generate_n1.py:35 | `df[names] = m` puts row i of m under the names in row i; the column list, the keys and every other cell are unchanged |
| Tables.AssignThenBlock | src/generate_n1.py:35-42 | reading the assigned names back gives exactly the assigned matrix |
| Tables.AssignKeepsOtherBlock | src/generate_n1.py:35-39 | a block of names outside the assigned ones reads the same before and after the assignment |
| Tables.DataFrame.AssignColumns | src/generate_n1.py:35 | the in-place assignment leaves the frame holding exactly the assigned table |
| Columns.CatCols | src/generate_n1.py:26 | a name is categorical exactly when some column of that name has dtype object; with distinct column names the list has no repeats |
| Columns.NumCols | src/generate_n1.py:27 | a name is numeric exactly when some column of that name has a dtype other than object; with distinct column names the list has no repeats |
| Columns.ClassifiedAreColumns | src/generate_n1.py:26-27 | both lists hold only names of columns of the train table |
| Columns.ClassifyInterleaves | src/generate_n1.py:26-27 | the column names are a riffle of the two lists, so each list keeps the table's column order |
| Columns.InterleavesMultiset | src/generate_n1.py:26-27 | a riffle holds exactly the elements of its two parts |
| Columns.ClassifyPartition | src/generate_n1.py:26-27 | together the two lists hold every column name exactly once; with distinct names no name is both categorical and numeric |
| Header.Digit | src/generate_n1.py:40 | the character is a decimal digit denoting the given value |
| Header.Decimal | src/generate_n1.py:40 | `str(i)` is a nonempty string of decimal digits, one digit long exactly for numbers below ten, starting with `0` only for zero |
| Header.DecimalRoundTrip | src/generate_n1.py:40 | reading the digits of `str(i)` gives i back |
| Header.OheNames | src/generate_n1.py:40 | there is one encoded-column name per encoder output column |
| Header.OheNamesDistinct | src/generate_n1.py:40 | the encoded-column names are pairwise different; the i-th is `ohe` followed by the digits of i with no leading zero; none holds a line break |
| Header.HeaderTextSnoc | src/generate_n1.py:45-46 | writing one more name appends that name and a newline to the file text |
| Header.LineEnd | src/generate_n1.py:46 | the position found is the first line break (`\n` or `\r`), or the end of a text without one |
| Header.HeaderRoundTrip | src/generate_n1.py:44-46 | reading the header file back line by line, with `\n`, `\r` and `\r\n` all ending a line, gives the written names, provided none holds a line break |
| Header.TextFile.Truncate | src/generate_n1.py:44 | opening for writing leaves the file empty |
| Header.TextFile.Write | src/generate_n1.py:46 | a write appends its text to the file |
| Header.WriteHeader | src/generate_n1.py:44-46 | after the loop the file holds every name followed by a newline, in list order |
| Pipeline.Features0 | src/generate_n1.py:24 | the train table without its label column still has distinct names and one row per train row |
| Pipeline.Combined | src/generate_n1.py:31 | the stacked table has one row per train and test row and holds every remaining train column |
| Pipeline.NumericInput | src/generate_n1.py:35 | the normalizer's input is well-shaped, one row per stacked row and one column per numeric name |
| Pipeline.CategoricalInput | src/generate_n1.py:39 | the encoder's input is well-shaped, one row per stacked row and one column per categorical name |
| Pipeline.Assembled | src/generate_n1.py:42 | the feature matrix is well-shaped, has one row per train and test row, and is as wide as the numeric names plus the encoder's width |
| Pipeline.Features | src/generate_n1.py:15-50 | the run fails exactly when the train table has no label column, and then with KeyError on that name |
| Pipeline.InPlaceNormalize | src/generate_n1.py:34-42 | after the numeric block is overwritten, reading it gives the normalizer's output, and the categorical block is still the categorical block of the stacked table |
| Pipeline.HeaderMatchesWidth | src/generate_n1.py:40-46 | the header is the numeric names and then `ohe0..ohe{k-1}`; its length equals the width of both saved matrices; with no encoded column it is the numeric names alone |
| Pipeline.SplitAtTrainCount | src/generate_n1.py:22-50 | the train part has exactly one row per train row, the test part one per test row, and together they are the assembled rows in order |
| Pipeline.LabelsAligned | src/generate_n1.py:21-49 | the train part carries one label per train row, the i-th being train row i's label cell; the test part carries none |
| Pipeline.CombinedRowOrder | src/generate_n1.py:31-39 | both blocks handed to the normalizer and the encoder hold the train rows first and then the test rows, cell by cell |
| Pipeline.OutputRowOrder | src/generate_n1.py:42-50 | train output row i is the normalizer's row i beside the encoder's row i; test output row i is row n_trn+i of each |
| Pipeline.ClassificationIgnoresTest | src/generate_n1.py:26-27 | whatever the test table, the header starts with the same numeric names, taken from the train table only, and the normalizer and encoder receive blocks of the same widths |
| Pipeline.HeaderFileMatchesWidth | src/generate_n1.py:44-46 | the header file read back gives the feature names, as many as the saved matrices have columns, when no numeric column name holds a line break |
| Pipeline.GenerateFeature | src/generate_n1.py:15-50 | with no label column it fails with KeyError and changes nothing; otherwise the train frame loses exactly its label column, the header file holds the feature names, and the two saved parts are those `Features` describes |

## Left out

- Reading the CSV files (`pd.read_csv` with `index_col`) is not modelled: the tables are given as values. Index parsing and type inference are part of that.
- Duplicate column names: `pd.read_csv` renames them, so a loaded table has distinct names. Distinct names are taken as a precondition (`WellFormed`), not derived.
- The encoder is modelled as seeing only the cell matrix of the categorical block, without column labels or row index.
- The normalizer's arithmetic and the encoder's internals are not modelled. This includes `min_obs`, which is only passed on. Each is known only by the shape it returns.
- Sparse CSR storage is not modelled: the matrix is a sequence of rows. The file format written by `save_data` is not modelled either; the model stops at the values handed to it.
- Logging, timing and the command-line interface are left out: they do not affect the result.
- Failing file I/O is left out, as are exceptions raised inside the collaborators. The one error modelled is the KeyError for a missing label column.
- The dtypes of the stacked table are not modelled faithfully: pandas may widen a column's dtype when stacking. The stacked table's dtypes are never read, because the classification uses the train table after the drop.
- Tables.Assign: only assigns to names already present. The script assigns only to numeric train columns, which are present in the stacked table; pandas would also add a missing column.
- The header file is text written with `\n` line ends. The model does not capture how text mode translates `\n` to the platform's line separator, or the character encoding. Reading back is modelled with Python's universal newlines (`\n`, `\r`, `\r\n`). A column name holding `\r` or `\n` can be read from a quoted CSV header. If it is a numeric column, its header line does not read back as one line, so the round trip is stated only when no numeric column name holds a line break; the `ohe` names never do.
- Cell values are real numbers, strings or NaN. Integer and floating-point widths are not modelled.
