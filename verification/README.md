# more-transformers: selectors and the schema-freezing dummy encoder

A Dafny model of the pandas-aware pipeline stages of `more_transformers`:

- `GetDummies` (`more_transformers/preprocessing.py`) runs `pd.get_dummies` and freezes the output columns at `fit` time. A later `transform` zero-fills the indicator columns a batch lacks, drops those it adds, and projects onto the fitted column list.
- `ColumnSelector` and `RowSelector` (`more_transformers/common.py`) dispatch on the shape of their spec:
  - None keeps everything;
  - a list or array goes through `.loc` (for columns, a tuple does too);
  - a string goes through `select_dtypes` (columns only);
  - a callable goes through `.loc`;
  - anything else is a `ValueError`.
- `ApplyFunction` and `PandasMethod`, as far as their construction checks and their pass-through behaviour when nothing is configured.

A DataFrame is an immutable `Frames.Table`: a row index plus an ordered list of labelled, typed columns. Every value is checked to have one cell per row (`Frames.Frame`). A Python exception is an `Outcomes.Error` inside a `Result`:

| exception | `Outcomes.Error` | raised by |
|---|---|---|
| the `isinstance` assertion | `NotADataFrame` | |
| the selectors' `ValueError` | `Uninterpretable` | |
| a `KeyError` | `KeyNotFound` | `.loc` |
| an `IndexError` | `MaskLengthMismatch` | `.loc` with a wrong-length boolean list |
| a `TypeError` | `UnknownDtype` | `select_dtypes` |
| an `AttributeError` | `NotFitted` | `transform` before `fit` |
| the construction asserts | `NotCallable` and `UnknownMethod` | the adapters |

Modules:

- `Outcomes`: `Option`, `Result` and the error kinds.
- `Positions`: positional selection. Every selection is a list of positions, which is then gathered:
  - `Chosen` handles masks;
  - `Locate` handles label lists;
  - `Compress` is the reference definition of mask filtering, and `GatherChosen` ties the two together.
- `Frames`: the table datatype, dtypes, and taking columns or rows by position.
- `Selection`: `common.py`.
- `Dummies`: `GetDummies`. `pd.get_dummies` stays abstract. An `Expansion` is any function from frames to frames that keeps the row index, and every theorem holds for every such function.
- `OneHot`: one concrete expansion (a plain one-hot encoding of the object and category columns) and a worked example proved about it. It is an admissible expansion, not a claim about pandas' exact column order.

Modelling decisions, all following the code:

- The errors are the exceptions the code raises:
  - an `AssertionError` for a non-DataFrame input;
  - an `AttributeError` for `transform` before `fit`, since `new_columns` and `output_columns` are not set yet;
  - a `ValueError` for an unrecognised spec.
- `GetDummies.transform` and `PandasMethod.transform` perform no DataFrame check. `GetDummies` therefore takes frames only, and `PandasMethod` passes any value through.
- A boolean list given to `.loc` is a positional mask, not a list of labels.
- `.loc` with a label list returns every column or row carrying a requested label. Over distinct labels that is one column or row per requested label, in request order. Over repeated labels, `Positions.LocateSingle` and `Positions.LocateAppend` pin down the result position by position.

## Model

| member | source | states |
|---|---|---|
| Positions.Locate | more_transformers/common.py:56-57 | `.loc` with a label list succeeds iff every requested label is on the axis; it returns every position carrying a requested label and nothing else |
| Positions.LocateSingle | more_transformers/common.py:56-57 | a single requested label yields all the positions carrying it, in ascending order, or fails when it is absent |
| Positions.LocateAppend | more_transformers/common.py:56-57 | a label list's positions are those of its first part followed by those of the rest, so order and multiplicity over repeated labels follow request order |
| Positions.LocateDistinct | more_transformers/common.py:56-57 | over labels without repeats, `.loc` finds each requested label exactly once, in request order |
| Positions.LocateEachOnce | more_transformers/common.py:56-57 | when every requested label occurs exactly once on the axis, `.loc` finds those positions in request order, whatever other labels repeat |
| Positions.GatherChosen | more_transformers/common.py:60-61 | gathering the positions a boolean mask chooses is exactly the reference filter `Compress`: the kept elements in their original order |
| Positions.CompressMembers | more_transformers/common.py:60-61 | the reference mask filter keeps an element exactly when some position holding it has its bit set |
| Selection.Resolve | more_transformers/common.py:56-57 | a label list resolves iff every label is present, else KeyError; a boolean list resolves iff it has one bit per axis entry, else IndexError |
| Selection.LocColumns | more_transformers/common.py:57 | `X.loc[:, ix]` keeps the row index, returns only columns of `X`, and with a label list only columns carrying a requested label |
| Selection.LocRows | more_transformers/common.py:128-129 | `X.loc[ix]` with a label list fails (KeyError) iff a label is missing from the index; it keeps every column's label and dtype in order, every result row is a row of `X` with its values, and with labels only requested labels appear |
| Selection.LocRowsReturnsEveryMatch | more_transformers/common.py:128-129 | with a repeated index, every row carrying a requested label is returned with its values |
| Selection.LocRowsByDistinctIndex | more_transformers/common.py:128-129 | over a distinct index, the result's index is exactly the request (repeats included) and each row carries the values of the input row of that label |
| Selection.LocColumnsByDistinctLabels | more_transformers/common.py:56-57 | over distinct column labels, `.loc` with a label list succeeds iff all labels are present, its labels are exactly the request (repeats included) and each column is the input column of that label |
| Selection.LocColumnsReturnsEveryMatch | more_transformers/common.py:56-57 | with repeated labels, every column carrying a requested label is in `.loc`'s result |
| Selection.LocColumnsEachOnce | more_transformers/common.py:56-57 | `.loc` of labels that each occur once succeeds and returns exactly the columns at their positions, in request order, over the same rows |
| Selection.LocColumnsFirst | more_transformers/common.py:56-57 | `.loc` of labels that each occur once succeeds and returns, for each requested label, the column at its first occurrence, in request order, over the same rows |
| Selection.LocAllLabels | more_transformers/common.py:57 | asking `.loc` for all labels of a table with distinct labels returns the table |
| Selection.SelectDtypes | more_transformers/common.py:59 | `select_dtypes(include=[tag])` fails iff the tag is unknown; otherwise it keeps the row index and exactly the columns whose dtype matches, in order |
| Selection.NewColumnSelector | more_transformers/common.py:40-43 | the spec "numeric" is stored as "number"; every other spec is stored unchanged |
| Selection.SelectColumns | more_transformers/common.py:49-63 | a non-DataFrame input fails the assertion; whatever the spec, a result keeps the rows and holds only input columns |
| Selection.SelectRows | more_transformers/common.py:121-133 | a non-DataFrame input fails the assertion; whatever the spec, a result keeps each column's label and dtype, and every result row is a row of the input, values included |
| Selection.NewApplyFunction | more_transformers/common.py:136-139 | construction fails iff `func` is neither callable nor None; otherwise it stores None for None and the given callable for a callable |
| Selection.ApplyFunctionTransform | more_transformers/common.py:144-151 | a non-DataFrame input fails the assertion; with no function the DataFrame is returned, otherwise the function's result |
| Selection.NewPandasMethod | more_transformers/common.py:155-162 | construction succeeds iff the method is None or a callable attribute whose name does not start with an underscore, and then stores it |
| Selection.PandasMethodTransform | more_transformers/common.py:167-172 | with no method the input is returned unchanged, otherwise the named method's result |
| Selection.ColumnSelectorNoneIsIdentity | more_transformers/common.py:54-55 | `ColumnSelector(None)` returns its DataFrame unchanged |
| Selection.ColumnsByLabel | more_transformers/common.py:56-57 | a label list fails exactly when a label is missing (KeyError); otherwise rows are kept and every column with a requested label is returned; over distinct labels, exactly the requested columns in request order |
| Selection.ColumnsByMask | more_transformers/common.py:56-57 | a boolean list fails iff its length differs from the column count; otherwise it keeps exactly the masked columns in their original order |
| Selection.ColumnsByCallable | more_transformers/common.py:60-61 | a callable spec selects what its result, used as a list spec, selects |
| Selection.ColumnsByDtype | more_transformers/common.py:58-59 | a dtype tag ("numeric" read as "number") fails iff unknown; otherwise a column is kept iff its dtype matches, in original order |
| Selection.NumericAlias | more_transformers/common.py:40-43 | `ColumnSelector('numeric')` and `ColumnSelector('number')` agree on every input and succeed on every DataFrame, although `select_dtypes` itself rejects "numeric" |
| Selection.UnrecognisedSpecsRejected | more_transformers/common.py:62-63 | a spec of no recognised shape raises the ValueError for columns and rows; a string row spec does too |
| Selection.ColumnSelectionIdempotent | more_transformers/common.py:56-57 | over distinct labels and keys, applying the same label-list selector to its own output changes nothing |
| Selection.RowSelectorNoneIsIdentity | more_transformers/common.py:126-127 | `RowSelector(None)` returns its DataFrame unchanged |
| Selection.RowsByLabel | more_transformers/common.py:128-129 | an index-label list fails exactly when a label is missing; all columns are kept; every result row is an input row with a requested label, and every input row with a requested label is returned; over a distinct index the rows are exactly the requested ones, in request order, with their values |
| Selection.RowsByMask | more_transformers/common.py:128-131 | a boolean row mask fails iff its length differs from the row count; otherwise exactly the masked rows of every column, in original order |
| Selection.RowsByCallable | more_transformers/common.py:130-131 | a callable row spec selects what its result, used as a list spec, selects |
| Selection.UnconfiguredAdaptersAreIdentity | more_transformers/common.py:135-172 | `ApplyFunction()` and `PandasMethod()` construct, and return their input unchanged |
| Dummies.NewGetDummies | more_transformers/preprocessing.py:83-89 | a new encoder has its expansion settings and nothing learned |
| Dummies.Fit | more_transformers/preprocessing.py:102-107 | the output columns are the expansion's labels; the new columns are those output labels not among the input's columns, in output order |
| Dummies.AddZero | more_transformers/preprocessing.py:116-117 | `X_dummies[name] = 0` appends at most one column, an int64 zero column, exactly when `name` is not yet a column, leaving the others in place |
| Dummies.ZeroFill | more_transformers/preprocessing.py:115-117 | existing columns stay in place; every appended column is an int64 zero column for a missing label, and no label is appended twice; afterwards every label is present and distinct labels stay distinct |
| Dummies.ZeroFillOrder | more_transformers/preprocessing.py:115-117 | the zero columns are appended in the order in which the missing labels first occur in `new_columns`: of two appended columns, the earlier one's label first occurs earlier in the list |
| Dummies.AppendedOnce | more_transformers/preprocessing.py:115-117 | a label the loop had to append occurs exactly once in the filled table, as an int64 zero column |
| Dummies.ZeroFilledColumn | more_transformers/preprocessing.py:115-117 | a column the loop added, one whose label the expansion lacked, is an int64 zero column over the batch's rows |
| Dummies.Transform | more_transformers/preprocessing.py:109-120 | before fit it fails; otherwise a result keeps the input's rows and only columns named in the fitted schema |
| Dummies.FitTransform | more_transformers/preprocessing.py:102-120 | `fit_transform` keeps the input's rows |
| Dummies.TransformBeforeFitFails | more_transformers/preprocessing.py:115-119 | `transform` on an unfitted encoder fails |
| Dummies.FitAllNew | more_transformers/preprocessing.py:105-106 | when the expansion keeps none of the input's labels, `new_columns` equals `output_columns` |
| Dummies.TransformFails | more_transformers/preprocessing.py:115-119 | for any learned schema, `transform` raises the KeyError exactly when an output column is missing after zero-filling |
| Dummies.ZeroFillPresent | more_transformers/preprocessing.py:115-117 | filling labels that are all present changes nothing |
| Dummies.TransformFailsOnMissingPassThrough | more_transformers/preprocessing.py:115-119 | `transform` fails (KeyError) exactly when a fitted output column that is a pass-through input column is missing from the batch's expansion; missing new columns never cause failure |
| Dummies.TransformFreezesSchema | more_transformers/preprocessing.py:113-119 | the output labels are exactly the fit-time expansion's labels, in the same order, and the rows are those of the batch |
| Dummies.OnlyNewColumnsAccepted | more_transformers/preprocessing.py:115-119 | an encoder all of whose output columns are new never fails, on any batch |
| Dummies.AppendedAtFirst | more_transformers/preprocessing.py:115-117 | a label of the list that the table lacked occurs in the filled table only at its first occurrence, as an int64 zero column |
| Dummies.LocAfterFill | more_transformers/preprocessing.py:115-119 | zero-filling labels a table lacks and asking `.loc` for them gives exactly one zero column per requested label, in request order, over the table's rows; a repeated label is filled once and returned twice |
| Dummies.TwoUnseenColumns | more_transformers/preprocessing.py:113-119 | an encoder with two new columns maps any batch whose expansion lacks both to exactly two zero columns, in schema order, over the batch's rows |
| Dummies.TransformLabels | more_transformers/preprocessing.py:119 | for any learned schema, when the expansion's labels are distinct, the output labels are exactly the learned output columns |
| Dummies.TransformKeeps | more_transformers/preprocessing.py:113-119 | for any learned schema, when the expansion's labels are distinct, an output column the expansion produced is passed on unchanged |
| Dummies.TransformZeros | more_transformers/preprocessing.py:115-119 | for any learned schema, when the expansion's labels are distinct, an output column the expansion lacks comes out as a zero column |
| Dummies.TransformKeepsExpandedColumns | more_transformers/preprocessing.py:113-119 | after fit, every output column present in the batch's expansion carries exactly that column's name, dtype and values |
| Dummies.TransformZeroFillsMissingNew | more_transformers/preprocessing.py:115-117 | after fit, an output column missing from the batch's expansion is a new column and comes out as int64 zeros over the batch's rows |
| Dummies.TransformDropsUnseen | more_transformers/preprocessing.py:119 | a column of the batch's expansion whose label is not a fitted output column does not reach the output |
| Dummies.FitTransformIsExpansion | more_transformers/preprocessing.py:105-119 | `fit_transform` of a table is exactly its expansion |
| Dummies.ColumnCountFrozen | more_transformers/preprocessing.py:105-119 | the column count of `transform(t2)` equals that of `fit_transform(t1)` |
| OneHot.Categories | more_transformers/preprocessing.py:105 | the categories of a column are exactly the texts of its non-missing cells, each listed once, in ascending text order |
| OneHot.Indicators | more_transformers/preprocessing.py:105 | one uint8 indicator per category of an encoded column, with pairwise distinct names `<column>_<category>`; every cell is 0 or 1, and 1 exactly in the rows holding that category |
| OneHot.IndicatorLabelsDiffer | more_transformers/preprocessing.py:105 | an indicator label never equals its column's label, and distinct categories of one column get distinct indicator labels |
| OneHot.Expand | more_transformers/preprocessing.py:113 | the concrete expansion keeps the row index |
| OneHot.TwoCategoryLabels | more_transformers/preprocessing.py:105 | a column holding `a`, `a`, `b`, with `b` first in text order, expands to the indicators of `b` then `a` |
| OneHot.TwoCategoryFit | more_transformers/preprocessing.py:102-107 | fitting on such a batch learns both indicator labels as output columns, and both are new |
| OneHot.UnseenCategoryTransform | more_transformers/preprocessing.py:109-120 | after that fit, a one-row batch holding only an unseen category comes out as the two fitted indicators, both zero, and its own indicator is dropped |
| OneHot.ScenarioFit | more_transformers/preprocessing.py:102-107 | with the one-hot expansion, fitting on colors red, red, blue learns `color_blue`, `color_red`, both new |
| OneHot.ScenarioTransform | more_transformers/preprocessing.py:109-120 | that encoder turns a one-row batch colored green into zero `color_blue` and `color_red` columns and drops `color_green` |

## Left out

- Dummies.Expansion: the expansion is a total function, so a `pd.get_dummies` call that raises is not modelled: a `columns` entry a later batch lacks (KeyError) or a `prefix` list whose length differs from the number of encoded columns (ValueError) would make `fit` (preprocessing.py:105) or `transform` (preprocessing.py:113) fail before the zero-fill loop.
- `pd.get_dummies` itself: a `columns` list, prefix lists or dicts, `prefix_sep`, `dummy_na`, `sparse`, `dtype`, `drop_first` and pandas' column order are library behaviour. `Dummies.Expansion` abstracts them; `get_kwargs` (preprocessing.py:91-100) only packs the settings and is folded into the expansion.
- The scaler wrappers `StandardScaler`, `MinMaxScaler` and `QuantileTransformer`, and the `PCA` wrapper: floating-point numerics delegated to scikit-learn.
- `ApplyFunction` and `PandasMethod` with a function or method configured: arbitrary foreign calls. They are parameters (`f`, `call`), and `kwargs` are not modelled.
- The `dir(pd.DataFrame)` reflection behind `method_list`: the attribute names are the `attributes` parameter, and `callable(getattr(...))` is taken as already applied to them.
- `fit` of the stateless stages returns `self` and does nothing; `BaseEstimator` parameter plumbing and thread safety are not modelled.
- The stale notebook checkpoint copy of `common.py`, and `setup.py` (packaging metadata).
- Selection.ColumnsByCallable: a callable returning a scalar label, a slice or a boolean Series aligned by index label is not modelled; the callable returns a label list or a positional mask.
- Selection.RowsByCallable: a callable returning a scalar label, a slice or a boolean Series aligned by index label is not modelled; the callable returns a label list or a positional mask.
- Selection.SelectDtypes: only the tags "number", "int64", "float64", "uint8", "bool", "object" and "category" are known; other numpy and pandas aliases are unknown here. Float cells are not represented: `Frames.Value` holds integers, texts, booleans and missing values only.
- Selection.NewColumnSelector: the source compares with `is`, which depends on string interning; the model uses equality.
- Selection.Resolve: pandas' KeyError lists all missing labels; the model only reports `KeyNotFound`.
- Dummies.TransformLabels: stated under the hypothesis that the expansion's labels are distinct. They can repeat: a pass-through column named like an indicator (an int64 column `c_x` next to an object column `c` holding `x`), or repeated input labels, which the expansion keeps. Then `.loc` returns every copy.
- Dummies.TransformKeeps: stated under the hypothesis that the expansion's labels are distinct. They can repeat: a pass-through column named like an indicator (an int64 column `c_x` next to an object column `c` holding `x`), or repeated input labels, which the expansion keeps. Then `.loc` returns every copy.
- Dummies.TransformZeros: stated under the hypothesis that the expansion's labels are distinct. They can repeat: a pass-through column named like an indicator (an int64 column `c_x` next to an object column `c` holding `x`), or repeated input labels, which the expansion keeps. Then `.loc` returns every copy.
- Dummies.TransformFreezesSchema: stated under the hypothesis that the expansion's labels are distinct. They can repeat: a pass-through column named like an indicator (an int64 column `c_x` next to an object column `c` holding `x`), or repeated input labels, which the expansion keeps. Then `.loc` returns every copy.
- Dummies.TransformKeepsExpandedColumns: stated under the hypothesis that the expansion's labels are distinct. They can repeat: a pass-through column named like an indicator (an int64 column `c_x` next to an object column `c` holding `x`), or repeated input labels, which the expansion keeps. Then `.loc` returns every copy.
- Dummies.TransformZeroFillsMissingNew: stated under the hypothesis that the expansion's labels are distinct. They can repeat: a pass-through column named like an indicator (an int64 column `c_x` next to an object column `c` holding `x`), or repeated input labels, which the expansion keeps. Then `.loc` returns every copy.
- Dummies.FitTransformIsExpansion: stated under the hypothesis that the expansion's labels are distinct. They can repeat: a pass-through column named like an indicator (an int64 column `c_x` next to an object column `c` holding `x`), or repeated input labels, which the expansion keeps. Then `.loc` returns every copy.
- Dummies.ColumnCountFrozen: stated under the hypothesis that the expansion's labels are distinct. They can repeat: a pass-through column named like an indicator (an int64 column `c_x` next to an object column `c` holding `x`), or repeated input labels, which the expansion keeps. Then `.loc` returns every copy.
- OneHot.TwoCategoryFit: takes the expanded labels as a hypothesis rather than fixing the expansion; `OneHot.TwoCategoryLabels` establishes it for the one-hot expansion, and `OneHot.ScenarioFit` combines the two.
- OneHot.UnseenCategoryTransform: takes the expanded labels as a hypothesis rather than fixing the expansion; `OneHot.OneCategoryLabels` establishes it for the one-hot expansion.
- OneHot.ScenarioTransform: takes the fitted schema as a hypothesis, which `OneHot.ScenarioFit` establishes for the fitting batch.
- Dummies.Transform: the input is a DataFrame; the code performs no type check, and what `pd.get_dummies` does with other values is not modelled.
- Positions.Locate: its own contract states which positions come back but not their order or multiplicity over repeated labels; `Positions.LocateSingle` and `Positions.LocateAppend` state those.
- Selection.SelectRows: a tuple row spec is not modelled. `X.loc[(a, b)]` reads a tuple as a (row, column) key, and a longer tuple raises "Too many indexers". `Listed` on the row axis is a list or an ndarray.
- OneHot.Indicators: a category column's indicators are those of its observed values in text order; pandas uses the declared categories in declared order, unobserved ones included, and declared categories are not modelled.
- Label and index types: column labels are strings and index labels are integers; pandas allows any hashable value (tuples, mixed types) on either axis, which is not modelled.
