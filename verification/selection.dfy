/** The selection stages and the pass-through adapters of `more_transformers/common.py`:
    `ColumnSelector`, `RowSelector`, and the unconfigured `ApplyFunction` and `PandasMethod`.

    The Python constructors accept a value of any shape and `transform` dispatches on it at
    call time; here the shapes are the constructors of `Spec`, and the dispatch is a match. */
module Selection {
  import opened Outcomes
  import opened Positions
  import opened Frames

  /** What `.loc` receives along one axis: a list of labels, or a list of booleans, which
      pandas reads as a positional mask. */
  datatype Indexer<K> = ByLabel(keys: seq<K>) | ByMask(bits: seq<bool>)

  /** The `columns` / `rows` argument of the selectors, by its Python shape. */
  datatype Spec<K> =
    | Unset                         // None
    | Listed(ix: Indexer<K>)        // a list or an ndarray; for columns, a tuple too
    | Tag(name: string)             // a str
    | Pick(f: Frame -> Indexer<K>)  // a callable; `.loc` calls it with the DataFrame
    | Unrecognised                  // any other value, an int for instance

  /** `.loc` along an axis whose labels are `keys`: the positions it keeps. */
  function Resolve<K(==)>(keys: seq<K>, ix: Indexer<K>): (r: Result<seq<nat>>)
    ensures r.Ok? ==> Within(r.value, |keys|)
    ensures ix.ByLabel? ==> (r.Ok? <==> forall i :: 0 <= i < |ix.keys| ==> ix.keys[i] in keys)
    ensures ix.ByLabel? && r.Err? ==> r.error == KeyNotFound
    ensures ix.ByMask? ==> (r.Ok? <==> |ix.bits| == |keys|)
    ensures ix.ByMask? && r.Err? ==> r.error == MaskLengthMismatch
  {
    match ix
    case ByLabel(request) =>
      (match Locate(keys, request)
       case None => Err(KeyNotFound)
       case Some(ps) => Ok(ps))
    case ByMask(bits) =>
      if |bits| == |keys| then Ok(Chosen(bits)) else Err(MaskLengthMismatch)
  }

  /** `X.loc[:, ix]`: columns picked by label or mask; the rows are left alone. */
  function LocColumns(t: Frame, ix: Indexer<Label>): (r: Result<Frame>)
    ensures ix.ByLabel? ==> (r.Ok? <==> forall i :: 0 <= i < |ix.keys| ==> ix.keys[i] in Labels(t))
    ensures ix.ByLabel? && r.Err? ==> r.error == KeyNotFound
    ensures r.Ok? ==> r.value.index == t.index
    ensures r.Ok? ==> forall c :: c in r.value.columns ==> c in t.columns
    ensures r.Ok? && ix.ByLabel? ==> forall c :: c in r.value.columns ==> c.name in ix.keys
  {
    var ps :- Resolve(Labels(t), ix);
    Ok(TakeColumns(t, ps))
  }

  /** `X.loc[ix]`: rows picked by index label or mask; every column is kept, and every row
      of the result is a row of `X`, values included. */
  function LocRows(t: Frame, ix: Indexer<RowKey>): (r: Result<Frame>)
    ensures ix.ByLabel? ==> (r.Ok? <==> forall i :: 0 <= i < |ix.keys| ==> ix.keys[i] in t.index)
    ensures ix.ByLabel? && r.Err? ==> r.error == KeyNotFound
    ensures r.Ok? ==> Labels(r.value) == Labels(t)
    ensures r.Ok? ==> forall j :: 0 <= j < |t.columns| ==> r.value.columns[j].dtype == t.columns[j].dtype
    ensures r.Ok? ==> forall i :: 0 <= i < |r.value.index| ==> RowOf(r.value, i, t)
    ensures r.Ok? && ix.ByLabel? ==> forall k :: k in r.value.index ==> k in ix.keys
  {
    var ps :- Resolve(t.index, ix);
    var r := TakeRows(t, ps);
    assert forall i :: 0 <= i < |ps| ==> RowOf(r, i, t) by {
      forall i | 0 <= i < |ps| ensures RowOf(r, i, t) {
        assert SameRow(r, i, t, ps[i]);
      }
    }
    Ok(r)
  }

  /** `.loc` with a label list over distinct column labels: exactly the requested columns,
      in request order and with repeats, each one the column of `t` carrying that label. */
  lemma LocColumnsByDistinctLabels(t: Frame, keys: seq<Label>)
    requires Distinct(Labels(t))
    ensures LocColumns(t, ByLabel(keys)).Ok? <==> forall i :: 0 <= i < |keys| ==> keys[i] in Labels(t)
    ensures var r := LocColumns(t, ByLabel(keys));
            r.Ok? ==> Labels(r.value) == keys
    ensures var r := LocColumns(t, ByLabel(keys));
            r.Ok? ==> forall i, j :: 0 <= i < |keys| && 0 <= j < |t.columns| && t.columns[j].name == keys[i] ==>
                        r.value.columns[i] == t.columns[j]
  {
    var ls := Labels(t);
    var located := Locate(ls, keys);
    if located.Some? {
      LocateDistinct(ls, keys);
      var ps := located.value;
      var r := TakeColumns(t, ps);
      assert LocColumns(t, ByLabel(keys)) == Ok(r);
      forall i | 0 <= i < |keys|
        ensures r.columns[i] == t.columns[ps[i]] && ls[ps[i]] == keys[i]
      {
      }
      forall i, j | 0 <= i < |keys| && 0 <= j < |t.columns| && t.columns[j].name == keys[i]
        ensures r.columns[i] == t.columns[j]
      {
        DistinctPositions(ls, j, ps[i]);
      }
      assert Labels(r) == keys;
    }
  }

  /** `.loc` with a label list returns every column carrying a requested label. */
  lemma LocColumnsReturnsEveryMatch(t: Frame, keys: seq<Label>)
    ensures var r := LocColumns(t, ByLabel(keys));
            r.Ok? ==> forall i, j :: 0 <= i < |keys| && 0 <= j < |t.columns| && t.columns[j].name == keys[i] ==>
                        t.columns[j] in r.value.columns
  {
    var r := LocColumns(t, ByLabel(keys));
    if r.Ok? {
      var ps := Locate(Labels(t), keys).value;
      assert r.value.columns == Gather(t.columns, ps);
      forall i, j | 0 <= i < |keys| && 0 <= j < |t.columns| && t.columns[j].name == keys[i]
        ensures t.columns[j] in r.value.columns
      {
        MatchGathered(t.columns, ps, j);
      }
    }
  }

  /** `.loc` with a list of index labels returns every row carrying a requested label, with
      its values, however often the label repeats in the index. */
  lemma LocRowsReturnsEveryMatch(t: Frame, keys: seq<RowKey>)
    ensures var r := LocRows(t, ByLabel(keys));
            r.Ok? ==> forall p :: 0 <= p < |t.index| && t.index[p] in keys ==>
                        exists i :: 0 <= i < |r.value.index| && SameRow(r.value, i, t, p)
  {
    var r := LocRows(t, ByLabel(keys));
    if r.Ok? {
      var ps := Locate(t.index, keys).value;
      assert r.value == TakeRows(t, ps);
      forall p | 0 <= p < |t.index| && t.index[p] in keys
        ensures exists i :: 0 <= i < |r.value.index| && SameRow(r.value, i, t, p)
      {
        var k :| 0 <= k < |keys| && keys[k] == t.index[p];
        assert p in ps;
        var i :| 0 <= i < |ps| && ps[i] == p;
        assert SameRow(r.value, i, t, ps[i]);
      }
    }
  }

  /** `.loc` with a list of index labels over a distinct index: exactly the requested rows,
      in request order and with repeats, each carrying the values of the row of that label. */
  lemma LocRowsByDistinctIndex(t: Frame, keys: seq<RowKey>)
    requires Distinct(t.index)
    ensures var r := LocRows(t, ByLabel(keys));
            r.Ok? ==> r.value.index == keys
    ensures var r := LocRows(t, ByLabel(keys));
            r.Ok? ==> forall j, i, p :: 0 <= j < |t.columns| && 0 <= i < |keys| && 0 <= p < |t.index| && t.index[p] == keys[i] ==>
                        r.value.columns[j].values[i] == t.columns[j].values[p]
  {
    var located := Locate(t.index, keys);
    if located.Some? {
      LocateDistinct(t.index, keys);
      var ps := located.value;
      var r := TakeRows(t, ps);
      assert LocRows(t, ByLabel(keys)) == Ok(r);
      forall j, i, p | 0 <= j < |t.columns| && 0 <= i < |keys| && 0 <= p < |t.index| && t.index[p] == keys[i]
        ensures r.columns[j].values[i] == t.columns[j].values[p]
      {
        DistinctPositions(t.index, p, ps[i]);
      }
    }
  }

  /** `.loc` of labels that each occur once: the columns at their positions, in request
      order. */
  lemma LocColumnsEachOnce(t: Frame, keys: seq<Label>, ps: seq<nat>)
    requires |ps| == |keys|
    requires forall i :: 0 <= i < |keys| ==> Occurrences(Labels(t), keys[i]) == [ps[i]]
    ensures var r := LocColumns(t, ByLabel(keys));
            && r.Ok? && r.value.index == t.index && |r.value.columns| == |ps|
            && forall i :: 0 <= i < |ps| ==> ps[i] < |t.columns| && r.value.columns[i] == t.columns[ps[i]]
  {
    LocateEachOnce(Labels(t), keys, ps);
    forall i | 0 <= i < |ps|
      ensures ps[i] < |t.columns|
    {
      assert Occurrences(Labels(t), keys[i])[0] == ps[i];
    }
  }

  /** Labels that each occur once are found at their first occurrence, in request order. */
  lemma LocColumnsFirst(t: Frame, keys: seq<Label>)
    requires forall i :: 0 <= i < |keys| ==>
               keys[i] in Labels(t) && Occurrences(Labels(t), keys[i]) == [FirstAt(Labels(t), keys[i])]
    ensures var r := LocColumns(t, ByLabel(keys));
            && r.Ok? && r.value.index == t.index && |r.value.columns| == |keys|
            && forall i :: 0 <= i < |keys| ==> r.value.columns[i] == t.columns[FirstAt(Labels(t), keys[i])]
  {
    var ps := seq(|keys|, i requires 0 <= i < |keys| => FirstAt(Labels(t), keys[i]));
    LocColumnsEachOnce(t, keys, ps);
  }

  /** Asking `.loc` for every label of a table with distinct labels gives the table back. */
  lemma LocAllLabels(t: Frame)
    requires Distinct(Labels(t))
    ensures LocColumns(t, ByLabel(Labels(t))) == Ok(t)
  {
    var ls := Labels(t);
    var ps := Locate(ls, ls).value;
    LocateDistinct(ls, ls);
    forall j | 0 <= j < |ps|
      ensures ps[j] == j
    {
      DistinctPositions(ls, ps[j], j);
    }
    assert Gather(t.columns, ps) == t.columns;
  }

  /** The dtype strings `select_dtypes` understands in this model. */
  predicate KnownDtypeTag(tag: string) {
    tag in {"number", "int64", "float64", "uint8", "bool", "object", "category"}
  }

  /** Whether a column of dtype `d` is included by the tag; "number" is every numeric dtype. */
  predicate TagMatches(tag: string, d: Dtype) {
    if tag == "number" then IsNumeric(d) else DtypeName(d) == tag
  }

  /** Which columns of `t` the tag includes. */
  function DtypeMask(t: Frame, tag: string): (m: seq<bool>)
    ensures |m| == |t.columns|
    ensures forall i :: 0 <= i < |t.columns| ==> (m[i] <==> TagMatches(tag, t.columns[i].dtype))
  {
    seq(|t.columns|, i requires 0 <= i < |t.columns| => TagMatches(tag, t.columns[i].dtype))
  }

  /** `X.select_dtypes(include=[tag])`: a tag pandas does not understand is an error. */
  function SelectDtypes(t: Frame, tag: string): (r: Result<Frame>)
    ensures r.Err? <==> !KnownDtypeTag(tag)
    ensures r.Err? ==> r.error == UnknownDtype
    ensures r.Ok? ==> r.value.index == t.index
    ensures r.Ok? ==> r.value.columns == Compress(t.columns, DtypeMask(t, tag))
  {
    if !KnownDtypeTag(tag) then Err(UnknownDtype)
    else
      var mask := DtypeMask(t, tag);
      GatherChosen(t.columns, mask);
      Ok(TakeColumns(t, Chosen(mask)))
  }

  // ---------------------------------------------------------------------------------------
  // ColumnSelector

  datatype ColumnSelector = ColumnSelector(columns: Spec<Label>)

  /** `ColumnSelector.__init__`: stores the spec, with "numeric" rewritten to "number". */
  function NewColumnSelector(columns: Spec<Label>): (s: ColumnSelector)
    ensures columns == Tag("numeric") ==> s.columns == Tag("number")
    ensures columns != Tag("numeric") ==> s.columns == columns
  {
    if columns.Tag? && columns.name == "numeric" then ColumnSelector(Tag("number"))
    else ColumnSelector(columns)
  }

  /** `ColumnSelector.transform`. Whatever the spec, the rows are never touched and no
      column is invented. */
  function SelectColumns(s: ColumnSelector, x: Data): (r: Result<Frame>)
    ensures x.NotFrame? ==> r == Err(NotADataFrame)
    ensures r.Ok? ==> r.value.index == x.frame.index
    ensures r.Ok? ==> forall c :: c in r.value.columns ==> c in x.frame.columns
  {
    match x
    case NotFrame => Err(NotADataFrame)
    case DataFrame(t) =>
      match s.columns
      case Unset => Ok(t)
      case Listed(ix) => LocColumns(t, ix)
      case Tag(name) => SelectDtypes(t, name)
      case Pick(f) => LocColumns(t, f(t))
      case Unrecognised => Err(Uninterpretable)
  }

  // ---------------------------------------------------------------------------------------
  // RowSelector

  datatype RowSelector = RowSelector(rows: Spec<RowKey>)

  /** `RowSelector.transform`. There is no branch for strings, so a tag is rejected like any
      other unrecognised value. Whatever the spec, the columns keep their labels and order. */
  function SelectRows(s: RowSelector, x: Data): (r: Result<Frame>)
    ensures x.NotFrame? ==> r == Err(NotADataFrame)
    ensures r.Ok? ==> Labels(r.value) == Labels(x.frame)
    ensures r.Ok? ==> forall j :: 0 <= j < |x.frame.columns| ==> r.value.columns[j].dtype == x.frame.columns[j].dtype
    ensures r.Ok? ==> forall i :: 0 <= i < |r.value.index| ==> RowOf(r.value, i, x.frame)
  {
    match x
    case NotFrame => Err(NotADataFrame)
    case DataFrame(t) =>
      match s.rows
      case Unset =>
        assert forall i :: 0 <= i < |t.index| ==> RowOf(t, i, t) by {
          forall i | 0 <= i < |t.index| ensures RowOf(t, i, t) {
            assert forall j :: 0 <= j < |t.columns| ==> t.columns[j] in t.columns;
            assert SameRow(t, i, t, i);
          }
        }
        Ok(t)
      case Listed(ix) => LocRows(t, ix)
      case Pick(f) => LocRows(t, f(t))
      case Tag(_) => Err(Uninterpretable)
      case Unrecognised => Err(Uninterpretable)
  }

  // ---------------------------------------------------------------------------------------
  // ApplyFunction and PandasMethod

  /** The `func` argument of `ApplyFunction` by its Python shape. */
  datatype FuncArg = NoFunc | Callable(f: Frame -> Data) | NotCallableValue

  datatype ApplyFunction = ApplyFunction(func: Option<Frame -> Data>)

  /** `ApplyFunction.__init__`: `func` must be callable or None. */
  function NewApplyFunction(func: FuncArg): (r: Result<ApplyFunction>)
    ensures r.Err? <==> func.NotCallableValue?
    ensures r.Err? ==> r.error == NotCallable
    ensures func.NoFunc? ==> r.Ok? && r.value.func.None?
    ensures func.Callable? ==> r.Ok? && r.value.func == Some(func.f)
  {
    match func
    case NoFunc => Ok(ApplyFunction(None))
    case Callable(f) => Ok(ApplyFunction(Some(f)))
    case NotCallableValue => Err(NotCallable)
  }

  /** `ApplyFunction.transform`; a configured function is an opaque call (`X.pipe`). */
  function ApplyFunctionTransform(a: ApplyFunction, x: Data): (r: Result<Data>)
    ensures x.NotFrame? ==> r == Err(NotADataFrame)
    ensures a.func.None? && x.DataFrame? ==> r == Ok(x)
    ensures a.func.Some? && x.DataFrame? ==> r == Ok(a.func.value(x.frame))
  {
    match x
    case NotFrame => Err(NotADataFrame)
    case DataFrame(t) =>
      match a.func
      case None => Ok(x)
      case Some(f) => Ok(f(t))
  }

  datatype PandasMethod = PandasMethod(op: Option<string>)

  /** `PandasMethod.__init__`; `attributes` are the callable attributes of `pd.DataFrame`,
      and `method_list` is those whose name does not start with an underscore. */
  function NewPandasMethod(op: Option<string>, attributes: set<string>): (r: Result<PandasMethod>)
    ensures r.Ok? <==> op.None? || (op.value in attributes && !(|op.value| > 0 && op.value[0] == '_'))
    ensures r.Ok? ==> r.value.op == op
    ensures r.Err? ==> r.error == UnknownMethod
  {
    var methodList := set a | a in attributes && !(|a| > 0 && a[0] == '_');
    if op.None? || op.value in methodList then Ok(PandasMethod(op))
    else Err(UnknownMethod)
  }

  /** `PandasMethod.transform`; `call` stands for `getattr(X, method)(**kwargs)`. There is no
      DataFrame check here. */
  function PandasMethodTransform(m: PandasMethod, x: Data, call: (string, Data) -> Data): (r: Data)
    ensures m.op.None? ==> r == x
    ensures m.op.Some? ==> r == call(m.op.value, x)
  {
    match m.op
    case None => x
    case Some(name) => call(name, x)
  }

  // ---------------------------------------------------------------------------------------
  // What the selectors promise

  /** `ColumnSelector(None)` returns the DataFrame it is given, unchanged. */
  lemma ColumnSelectorNoneIsIdentity(t: Frame)
    ensures SelectColumns(NewColumnSelector(Unset), DataFrame(t)) == Ok(t)
  {
  }

  /** A label list keeps the rows and fails exactly when a requested label is missing. Over
      distinct column labels the result has exactly the requested columns, in request order,
      repeats included; with repeated column labels every column carrying a requested label
      is returned. */
  lemma ColumnsByLabel(t: Frame, keys: seq<Label>)
    ensures var r := SelectColumns(NewColumnSelector(Listed(ByLabel(keys))), DataFrame(t));
            && (r.Err? <==> exists i :: 0 <= i < |keys| && keys[i] !in Labels(t))
            && (r.Err? ==> r.error == KeyNotFound)
            && (r.Ok? ==> r.value.index == t.index)
            && (r.Ok? ==> forall i, j :: 0 <= i < |keys| && 0 <= j < |t.columns| && t.columns[j].name == keys[i] ==>
                            t.columns[j] in r.value.columns)
            && (r.Ok? && Distinct(Labels(t)) ==> Labels(r.value) == keys)
            && (r.Ok? && Distinct(Labels(t)) ==>
                  forall i, j :: 0 <= i < |keys| && 0 <= j < |t.columns| && t.columns[j].name == keys[i] ==>
                    r.value.columns[i] == t.columns[j])
  {
    var r := SelectColumns(NewColumnSelector(Listed(ByLabel(keys))), DataFrame(t));
    assert r == LocColumns(t, ByLabel(keys));
    LocColumnsReturnsEveryMatch(t, keys);
    if Distinct(Labels(t)) {
      LocColumnsByDistinctLabels(t, keys);
    }
  }

  /** A boolean list is a mask over the columns: it must have one bit per column, and it
      keeps exactly the columns whose bit is set, in their original order. */
  lemma ColumnsByMask(t: Frame, bits: seq<bool>)
    ensures var r := SelectColumns(NewColumnSelector(Listed(ByMask(bits))), DataFrame(t));
            && (r.Err? <==> |bits| != |t.columns|)
            && (r.Err? ==> r.error == MaskLengthMismatch)
            && (r.Ok? ==> r.value == Table(t.index, Compress(t.columns, bits)))
  {
    if |bits| == |t.columns| {
      assert Resolve(Labels(t), ByMask(bits)) == Ok(Chosen(bits));
      GatherChosen(t.columns, bits);
    }
  }

  /** A callable is called with the DataFrame and its result is used as the list spec. */
  lemma ColumnsByCallable(t: Frame, f: Frame -> Indexer<Label>)
    ensures SelectColumns(NewColumnSelector(Pick(f)), DataFrame(t))
         == SelectColumns(NewColumnSelector(Listed(f(t))), DataFrame(t))
  {
  }

  /** A dtype tag keeps exactly the columns of a matching dtype, in their original order, and
      an unknown tag is an error; "numeric" behaves as "number". */
  lemma ColumnsByDtype(t: Frame, tag: string)
    ensures var effective := if tag == "numeric" then "number" else tag;
            var r := SelectColumns(NewColumnSelector(Tag(tag)), DataFrame(t));
            && (r.Err? <==> !KnownDtypeTag(effective))
            && (r.Err? ==> r.error == UnknownDtype)
            && (r.Ok? ==> r.value.index == t.index)
            && (r.Ok? ==> r.value.columns == Compress(t.columns, DtypeMask(t, effective)))
            && (r.Ok? ==> forall j :: 0 <= j < |t.columns| ==>
                            (t.columns[j] in r.value.columns <==> TagMatches(effective, t.columns[j].dtype)))
  {
    var effective := if tag == "numeric" then "number" else tag;
    var r := SelectColumns(NewColumnSelector(Tag(tag)), DataFrame(t));
    assert r == SelectDtypes(t, effective);
    if r.Ok? {
      var mask := DtypeMask(t, effective);
      var ps := Chosen(mask);
      assert r.value.columns == Gather(t.columns, ps);
      forall j | 0 <= j < |t.columns|
        ensures t.columns[j] in r.value.columns <==> TagMatches(effective, t.columns[j].dtype)
      {
        if TagMatches(effective, t.columns[j].dtype) {
          var k :| 0 <= k < |ps| && ps[k] == j;
          assert r.value.columns[k] == t.columns[j];
        } else {
          forall k | 0 <= k < |ps|
            ensures r.value.columns[k] != t.columns[j]
          {
            assert mask[ps[k]];
          }
        }
      }
    }
  }

  /** The "numeric" alias: `ColumnSelector('numeric')` and `ColumnSelector('number')` select
      the same columns of every input, although `select_dtypes` itself rejects "numeric". */
  lemma NumericAlias(x: Data)
    ensures SelectColumns(NewColumnSelector(Tag("numeric")), x)
         == SelectColumns(NewColumnSelector(Tag("number")), x)
    ensures x.DataFrame? ==> SelectColumns(NewColumnSelector(Tag("numeric")), x).Ok?
    ensures x.DataFrame? ==> SelectDtypes(x.frame, "numeric") == Err(UnknownDtype)
  {
  }

  /** A spec of no recognised shape is rejected, and so is a string given as a row spec:
      `RowSelector` has no branch for strings. */
  lemma UnrecognisedSpecsRejected(t: Frame, tag: string)
    ensures SelectColumns(NewColumnSelector(Unrecognised), DataFrame(t)) == Err(Uninterpretable)
    ensures SelectRows(RowSelector(Unrecognised), DataFrame(t)) == Err(Uninterpretable)
    ensures SelectRows(RowSelector(Tag(tag)), DataFrame(t)) == Err(Uninterpretable)
  {
  }

  /** Selecting the same distinct labels again from the result changes nothing. */
  lemma ColumnSelectionIdempotent(t: Frame, keys: seq<Label>)
    requires Distinct(Labels(t)) && Distinct(keys)
    ensures var s := NewColumnSelector(Listed(ByLabel(keys)));
            var r := SelectColumns(s, DataFrame(t));
            r.Ok? ==> SelectColumns(s, DataFrame(r.value)) == r
  {
    var r := SelectColumns(NewColumnSelector(Listed(ByLabel(keys))), DataFrame(t));
    LocColumnsByDistinctLabels(t, keys);
    if r.Ok? {
      LocAllLabels(r.value);
    }
  }

  /** `RowSelector(None)` returns the DataFrame it is given, unchanged. */
  lemma RowSelectorNoneIsIdentity(t: Frame)
    ensures SelectRows(RowSelector(Unset), DataFrame(t)) == Ok(t)
  {
  }

  /** A list of index labels keeps every column and fails exactly when a label is missing
      from the index. Every row carrying a requested label is returned with its values, and
      nothing else is. Over a distinct index the result has exactly the requested rows, in
      request order. */
  lemma RowsByLabel(t: Frame, keys: seq<RowKey>)
    ensures var r := SelectRows(RowSelector(Listed(ByLabel(keys))), DataFrame(t));
            && (r.Err? <==> exists i :: 0 <= i < |keys| && keys[i] !in t.index)
            && (r.Err? ==> r.error == KeyNotFound)
            && (r.Ok? ==> |r.value.columns| == |t.columns|)
            && (r.Ok? ==> forall j :: 0 <= j < |t.columns| ==>
                            r.value.columns[j].name == t.columns[j].name && r.value.columns[j].dtype == t.columns[j].dtype)
            && (r.Ok? ==> forall i :: 0 <= i < |r.value.index| ==> RowOf(r.value, i, t) && r.value.index[i] in keys)
            && (r.Ok? ==> forall p :: 0 <= p < |t.index| && t.index[p] in keys ==>
                            exists i :: 0 <= i < |r.value.index| && SameRow(r.value, i, t, p))
            && (r.Ok? && Distinct(t.index) ==> r.value.index == keys)
            && (r.Ok? && Distinct(t.index) ==>
                  forall j, i, p :: 0 <= j < |t.columns| && 0 <= i < |keys| && 0 <= p < |t.index| && t.index[p] == keys[i] ==>
                    r.value.columns[j].values[i] == t.columns[j].values[p])
  {
    var r := SelectRows(RowSelector(Listed(ByLabel(keys))), DataFrame(t));
    assert r == LocRows(t, ByLabel(keys));
    LocRowsReturnsEveryMatch(t, keys);
    if Distinct(t.index) {
      LocRowsByDistinctIndex(t, keys);
    }
  }

  /** A boolean list is a mask over the rows: it must have one bit per row, and it keeps
      exactly the rows whose bit is set, in their original order, with every column. */
  lemma RowsByMask(t: Frame, bits: seq<bool>)
    ensures var r := SelectRows(RowSelector(Listed(ByMask(bits))), DataFrame(t));
            && (r.Err? <==> |bits| != |t.index|)
            && (r.Err? ==> r.error == MaskLengthMismatch)
            && (r.Ok? ==> r.value.index == Compress(t.index, bits))
            && (r.Ok? ==> |r.value.columns| == |t.columns|)
            && (r.Ok? ==> forall j :: 0 <= j < |t.columns| ==>
                            r.value.columns[j] == t.columns[j].(values := Compress(t.columns[j].values, bits)))
  {
    if |bits| == |t.index| {
      GatherChosen(t.index, bits);
      forall j | 0 <= j < |t.columns|
        ensures Gather(t.columns[j].values, Chosen(bits)) == Compress(t.columns[j].values, bits)
      {
        assert t.columns[j] in t.columns;
        GatherChosen(t.columns[j].values, bits);
      }
    }
  }

  /** A callable row spec is called with the DataFrame and its result is used as the list
      spec; with a mask it keeps exactly the rows it marks. */
  lemma RowsByCallable(t: Frame, f: Frame -> Indexer<RowKey>)
    ensures SelectRows(RowSelector(Pick(f)), DataFrame(t))
         == SelectRows(RowSelector(Listed(f(t))), DataFrame(t))
  {
  }

  /** With nothing configured the adapters are the identity: `ApplyFunction()` returns its
      DataFrame, and `PandasMethod()` returns whatever it is given, DataFrame or not. */
  lemma UnconfiguredAdaptersAreIdentity(x: Data, attributes: set<string>, call: (string, Data) -> Data)
    ensures NewApplyFunction(NoFunc).Ok?
    ensures x.DataFrame? ==> ApplyFunctionTransform(NewApplyFunction(NoFunc).value, x) == Ok(x)
    ensures NewPandasMethod(None, attributes).Ok?
    ensures PandasMethodTransform(NewPandasMethod(None, attributes).value, x, call) == x
  {
  }
}
