/** `GetDummies` of `more_transformers/preprocessing.py`: one-hot encoding whose output
    columns are frozen when the encoder is fitted.

    The expansion itself, `pd.get_dummies` under the encoder's keyword arguments, is library
    behaviour and stays abstract: an `Expansion` is any function from tables to tables that
    keeps the row index. Everything the wrapper adds on top of it is modelled exactly. */
module Dummies {
  import opened Outcomes
  import opened Positions
  import opened Frames
  import Selection

  /** `pd.get_dummies(X, **kwargs)` for one fixed set of keyword arguments. It is total: a
      call that raises is not modelled. */
  type Expansion = f: Frame -> Frame | forall t: Frame :: f(t).index == t.index
    witness (t: Frame) => t

  /** The state `fit` learns: `output_columns` and `new_columns`. */
  datatype Schema = Schema(outputColumns: seq<Label>, newColumns: seq<Label>)

  /** The encoder: its expansion and, once fitted, the frozen schema. */
  datatype GetDummies = GetDummies(expand: Expansion, learned: Option<Schema>)

  /** A freshly constructed encoder; nothing is learned yet. */
  function NewGetDummies(expand: Expansion): (g: GetDummies)
    ensures g.expand == expand && g.learned.None?
  {
    GetDummies(expand, None)
  }

  /** For each label of `labels`, whether it is not a column label of `x`. */
  function NewMask(labels: seq<Label>, x: Frame): (m: seq<bool>)
    ensures |m| == |labels|
    ensures forall i :: 0 <= i < |labels| ==> (m[i] <==> labels[i] !in Labels(x))
  {
    seq(|labels|, i requires 0 <= i < |labels| => labels[i] !in Labels(x))
  }

  /** `fit`: the output columns are those of the expansion of `x`; the new columns are the
      output columns that were not columns of `x`, in output order. */
  function Fit(g: GetDummies, x: Frame): (fitted: GetDummies)
    ensures fitted.expand == g.expand && fitted.learned.Some?
    ensures fitted.learned.value.outputColumns == Labels(g.expand(x))
    ensures var s := fitted.learned.value;
            s.newColumns == Compress(s.outputColumns, NewMask(s.outputColumns, x))
    ensures var s := fitted.learned.value;
            forall l :: l in s.newColumns <==> l in s.outputColumns && l !in Labels(x)
  {
    var out := Labels(g.expand(x));
    var mask := NewMask(out, x);
    CompressMembers(out, mask);
    GetDummies(g.expand, Some(Schema(out, Compress(out, mask))))
  }

  /** The column `X_dummies[name] = 0` adds: int64 zeros over the rows. */
  function ZeroColumn(name: Label, rows: nat): (c: Column)
    ensures c.name == name && c.dtype == Int64 && |c.values| == rows
    ensures forall v :: v in c.values ==> v == Int(0)
  {
    Column(name, Int64, seq(rows, _ => Int(0)))
  }

  /** One turn of the loop of `transform`: `X_dummies[name] = 0` when `name` is not yet a
      column. An added column goes last; the existing columns are untouched. */
  function AddZero(d: Frame, name: Label): (r: Frame)
    ensures r.index == d.index
    ensures |d.columns| <= |r.columns| <= |d.columns| + 1
    ensures forall j :: 0 <= j < |d.columns| ==> r.columns[j] == d.columns[j]
    ensures name in Labels(r)
    ensures forall j :: |d.columns| <= j < |r.columns| ==>
              r.columns[j] == ZeroColumn(name, |d.index|) && name !in Labels(d)
    ensures forall l :: l in Labels(r) <==> l in Labels(d) || l == name
    ensures Distinct(Labels(d)) ==> Distinct(Labels(r))
  {
    if name in Labels(d) then d
    else
      var r := Table(d.index, d.columns + [ZeroColumn(name, |d.index|)]);
      assert Labels(r) == Labels(d) + [name];
      r
  }

  /** The loop of `transform`: each label not yet a column is appended as a zero column.
      Existing columns, and their order, are untouched. */
  function ZeroFill(d: Frame, labels: seq<Label>): (r: Frame)
    ensures r.index == d.index
    ensures |r.columns| >= |d.columns|
    ensures forall j :: 0 <= j < |d.columns| ==> r.columns[j] == d.columns[j]
    ensures forall i :: 0 <= i < |labels| ==> labels[i] in Labels(r)
    ensures forall j :: |d.columns| <= j < |r.columns| ==>
              && r.columns[j] == ZeroColumn(r.columns[j].name, |d.index|)
              && r.columns[j].name in labels
              && r.columns[j].name !in Labels(d)
    ensures forall j, k :: |d.columns| <= j < k < |r.columns| ==> r.columns[j].name != r.columns[k].name
    ensures forall l :: l in Labels(r) <==> l in Labels(d) || l in labels
    ensures Distinct(Labels(d)) ==> Distinct(Labels(r))
    decreases |labels|
  {
    if labels == [] then d
    else
      var next := AddZero(d, labels[0]);
      var r := ZeroFill(next, labels[1..]);
      assert forall i :: 1 <= i < |labels| ==> labels[i] == labels[1..][i - 1];
      assert forall l :: l in labels <==> l == labels[0] || l in labels[1..];
      r
  }

  /** Of two appended columns, the earlier one's label first occurs earlier in `labels`. */
  lemma {:induction false} ZeroFillOrderPair(d: Frame, labels: seq<Label>, j: nat, k: nat)
    requires |d.columns| <= j < k < |ZeroFill(d, labels).columns|
    ensures var r := ZeroFill(d, labels);
            && r.columns[j].name in labels && r.columns[k].name in labels
            && FirstAt(labels, r.columns[j].name) < FirstAt(labels, r.columns[k].name)
    decreases |labels|
  {
    if labels != [] {
      var next := AddZero(d, labels[0]);
      var rest := labels[1..];
      var r := ZeroFill(next, rest);
      assert r == ZeroFill(d, labels);
      var a, b := r.columns[j].name, r.columns[k].name;
      assert b !in Labels(next) by {
        assert forall i :: 0 <= i < |next.columns| ==> r.columns[i] == next.columns[i];
      }
      assert b != labels[0];
      if j < |next.columns| {
        assert r.columns[j] == next.columns[j];
        assert a == labels[0];
      } else {
        ZeroFillOrderPair(next, rest, j, k);
        assert a != labels[0];
      }
    }
  }

  /** The appended columns follow `labels`: the loop appends in the order in which the
      missing labels first occur in `new_columns`. */
  lemma ZeroFillOrder(d: Frame, labels: seq<Label>)
    ensures var r := ZeroFill(d, labels);
            forall j, k :: |d.columns| <= j < k < |r.columns| ==>
              && r.columns[j].name in labels && r.columns[k].name in labels
              && FirstAt(labels, r.columns[j].name) < FirstAt(labels, r.columns[k].name)
  {
    var r := ZeroFill(d, labels);
    forall j, k | |d.columns| <= j < k < |r.columns|
      ensures && r.columns[j].name in labels && r.columns[k].name in labels
              && FirstAt(labels, r.columns[j].name) < FirstAt(labels, r.columns[k].name)
    {
      ZeroFillOrderPair(d, labels, j, k);
    }
  }

  /** A column of the filled table whose label the table did not have is a zero column. */
  lemma ZeroFilledColumn(d: Frame, labels: seq<Label>, j: nat)
    requires j < |ZeroFill(d, labels).columns|
    requires ZeroFill(d, labels).columns[j].name !in Labels(d)
    ensures ZeroFill(d, labels).columns[j] == ZeroColumn(ZeroFill(d, labels).columns[j].name, |d.index|)
  {
    var r := ZeroFill(d, labels);
    assert forall k :: 0 <= k < |d.columns| ==> r.columns[k].name in Labels(d);
  }

  /** `transform`: expand, zero-fill the missing new columns, then `.loc` the output columns.
      Whatever happens, the rows are those of `x` and no column outside the schema survives. */
  function Transform(g: GetDummies, x: Frame): (r: Result<Frame>)
    ensures g.learned.None? ==> r == Err(NotFitted)
    ensures r.Ok? ==> r.value.index == x.index
    ensures r.Ok? ==> forall c :: c in r.value.columns ==> c.name in g.learned.value.outputColumns
  {
    match g.learned
    case None => Err(NotFitted)
    case Some(s) =>
      var filled := ZeroFill(g.expand(x), s.newColumns);
      Selection.LocColumns(filled, Selection.ByLabel(s.outputColumns))
  }

  /** `fit_transform`, as `TransformerMixin` defines it: fit, then transform the same table. */
  function FitTransform(g: GetDummies, x: Frame): (r: Result<Frame>)
    ensures r.Ok? ==> r.value.index == x.index
  {
    Transform(Fit(g, x), x)
  }

  // ---------------------------------------------------------------------------------------
  // What the wrapper promises

  /** `transform` before `fit` fails: `new_columns` and `output_columns` are not set yet. */
  lemma TransformBeforeFitFails(expand: Expansion, x: Frame)
    ensures Transform(NewGetDummies(expand), x) == Err(NotFitted)
  {
  }

  /** When the expansion keeps none of the input's column labels, every output column is
      new. */
  lemma FitAllNew(g: GetDummies, x: Frame, out: seq<Label>)
    requires Labels(g.expand(x)) == out
    requires forall i :: 0 <= i < |out| ==> out[i] !in Labels(x)
    ensures Fit(g, x).learned == Some(Schema(out, out))
  {
    CompressAll(out, NewMask(out, x));
  }

  /** Filling labels that are all present already changes nothing. */
  lemma {:induction false} ZeroFillPresent(d: Frame, labels: seq<Label>)
    requires forall i :: 0 <= i < |labels| ==> labels[i] in Labels(d)
    ensures ZeroFill(d, labels) == d
    decreases |labels|
  {
    if labels != [] {
      ZeroFillPresent(d, labels[1..]);
    }
  }

  /** For any learned schema, `transform` fails, with a KeyError, exactly when an output
      column is missing from the zero-filled expansion. */
  lemma TransformFails(g: GetDummies, x: Frame)
    requires g.learned.Some?
    ensures var s := g.learned.value;
            var filled := ZeroFill(g.expand(x), s.newColumns);
            && (Transform(g, x).Err? <==> exists i :: 0 <= i < |s.outputColumns| && s.outputColumns[i] !in Labels(filled))
            && (Transform(g, x).Err? ==> Transform(g, x).error == KeyNotFound)
  {
    TransformIsLoc(g, x);
  }

  /** After fitting on `t1`, an output label is missing from the zero-filled expansion of
      `t2` exactly when it is a column of `t1` that the expansion of `t2` lacks. */
  lemma FilledMissing(g: GetDummies, t1: Frame, t2: Frame, l: Label)
    requires l in Fit(g, t1).learned.value.outputColumns
    ensures l !in Labels(ZeroFill(g.expand(t2), Fit(g, t1).learned.value.newColumns))
            <==> l !in Labels(g.expand(t2)) && l in Labels(t1)
  {
  }

  /** After fitting on `t1`, transforming `t2` fails exactly when an output column that is
      not new (a pass-through column of `t1`) is missing from the expansion of `t2`: only new
      columns are repaired, and the final `.loc` raises a KeyError. */
  lemma TransformFailsOnMissingPassThrough(g: GetDummies, t1: Frame, t2: Frame)
    ensures var s := Fit(g, t1).learned.value;
            var d := g.expand(t2);
            Transform(Fit(g, t1), t2).Err? <==>
              exists i :: 0 <= i < |s.outputColumns| && s.outputColumns[i] !in Labels(d) && s.outputColumns[i] in Labels(t1)
    ensures Transform(Fit(g, t1), t2).Err? ==> Transform(Fit(g, t1), t2).error == KeyNotFound
  {
    var fitted := Fit(g, t1);
    var out := fitted.learned.value.outputColumns;
    TransformFails(fitted, t2);
    forall i | 0 <= i < |out|
      ensures out[i] !in Labels(ZeroFill(g.expand(t2), fitted.learned.value.newColumns))
              <==> out[i] !in Labels(g.expand(t2)) && out[i] in Labels(t1)
    {
      FilledMissing(g, t1, t2, out[i]);
    }
  }

  /** Schema freeze: when the expansion of `t2` has distinct labels, the output columns are
      exactly the fit-time output columns, same labels and same order, whatever categories
      `t2` holds; the rows are those of `t2`. */
  lemma TransformFreezesSchema(g: GetDummies, t1: Frame, t2: Frame)
    requires Distinct(Labels(g.expand(t2)))
    ensures var r := Transform(Fit(g, t1), t2);
            r.Ok? ==> Labels(r.value) == Labels(g.expand(t1)) && r.value.index == t2.index
  {
    TransformLabels(Fit(g, t1), t2);
  }

  /** On a learned schema, `transform` unfolds to `.loc` of the output columns over the
      zero-filled expansion. */
  lemma TransformIsLoc(g: GetDummies, x: Frame)
    requires g.learned.Some?
    ensures var s := g.learned.value;
            var filled := ZeroFill(g.expand(x), s.newColumns);
            Transform(g, x) == Selection.LocColumns(filled, Selection.ByLabel(s.outputColumns))
  {
  }

  /** A label the loop has to append occurs exactly once in the filled table, at an
      appended position, as a zero column. */
  lemma AppendedOnce(d: Frame, labels: seq<Label>, l: Label) returns (n: nat)
    requires l in labels && l !in Labels(d)
    ensures var r := ZeroFill(d, labels);
            && |d.columns| <= n < |r.columns|
            && Occurrences(Labels(r), l) == [n]
            && r.columns[n] == ZeroColumn(l, |d.index|)
  {
    var r := ZeroFill(d, labels);
    var ls := Labels(r);
    var i :| 0 <= i < |labels| && labels[i] == l;
    n :| 0 <= n < |ls| && ls[n] == l;
    assert forall j :: 0 <= j < |d.columns| ==> ls[j] in Labels(d);
    OccursOnlyAt(ls, l, n);
    ZeroFilledColumn(d, labels, n);
  }

  /** An encoder whose output columns are all new never fails: whatever the expansion of the
      batch lacks is zero-filled before the `.loc`. */
  lemma OnlyNewColumnsAccepted(g: GetDummies, x: Frame, out: seq<Label>)
    requires g.learned == Some(Schema(out, out))
    ensures Transform(g, x).Ok?
  {
    TransformIsLoc(g, x);
  }

  /** The label `labels[i]`, absent from the table, occurs in the filled table only where
      it first occurs, as a zero column. */
  lemma AppendedAtFirst(d: Frame, labels: seq<Label>, i: nat)
    requires i < |labels| && labels[i] !in Labels(d)
    ensures var ls := Labels(ZeroFill(d, labels));
            && labels[i] in ls
            && Occurrences(ls, labels[i]) == [FirstAt(ls, labels[i])]
            && ZeroFill(d, labels).columns[FirstAt(ls, labels[i])] == ZeroColumn(labels[i], |d.index|)
  {
    var ls := Labels(ZeroFill(d, labels));
    var n := AppendedOnce(d, labels, labels[i]);
    FirstOfSingle(ls, labels[i], n);
  }

  /** Zero-filling labels a table lacks, then asking `.loc` for them, gives exactly one zero
      column per requested label, in request order, over the table's rows; a label listed
      twice is filled once and returned twice. */
  lemma LocAfterFill(d: Frame, labels: seq<Label>)
    requires forall i :: 0 <= i < |labels| ==> labels[i] !in Labels(d)
    ensures var r := Selection.LocColumns(ZeroFill(d, labels), Selection.ByLabel(labels));
            && r.Ok? && r.value.index == d.index && |r.value.columns| == |labels|
            && forall i :: 0 <= i < |labels| ==> r.value.columns[i] == ZeroColumn(labels[i], |d.index|)
  {
    var filled := ZeroFill(d, labels);
    var ls := Labels(filled);
    forall i | 0 <= i < |labels|
      ensures labels[i] in ls && Occurrences(ls, labels[i]) == [FirstAt(ls, labels[i])]
      ensures filled.columns[FirstAt(ls, labels[i])] == ZeroColumn(labels[i], |d.index|)
    {
      AppendedAtFirst(d, labels, i);
    }
    Selection.LocColumnsFirst(filled, labels);
  }

  /** An encoder with two new output columns turns any batch whose expansion lacks both into
      exactly those two zero columns, in schema order, over the batch's rows. */
  lemma TwoUnseenColumns(g: GetDummies, x: Frame, a: Label, b: Label)
    requires g.learned == Some(Schema([a, b], [a, b]))
    requires a !in Labels(g.expand(x)) && b !in Labels(g.expand(x))
    ensures var r := Transform(g, x);
            && r.Ok? && r.value.index == x.index && |r.value.columns| == 2
            && r.value.columns[0] == ZeroColumn(a, |x.index|)
            && r.value.columns[1] == ZeroColumn(b, |x.index|)
  {
    TransformIsLoc(g, x);
    LocAfterFill(g.expand(x), [a, b]);
  }

  /** Under distinct expanded labels the output labels are exactly the learned output columns. */
  lemma TransformLabels(g: GetDummies, x: Frame)
    requires g.learned.Some?
    requires Distinct(Labels(g.expand(x)))
    ensures var r := Transform(g, x);
            r.Ok? ==> Labels(r.value) == g.learned.value.outputColumns
  {
    var s := g.learned.value;
    TransformIsLoc(g, x);
    Selection.LocColumnsByDistinctLabels(ZeroFill(g.expand(x), s.newColumns), s.outputColumns);
  }

  /** Under distinct expanded labels an output column the expansion produced is passed on
      unchanged. */
  lemma TransformKeeps(g: GetDummies, x: Frame)
    requires g.learned.Some?
    requires Distinct(Labels(g.expand(x)))
    ensures var out := g.learned.value.outputColumns;
            var d := g.expand(x);
            var r := Transform(g, x);
            r.Ok? ==> |r.value.columns| == |out| &&
                      forall i, j :: 0 <= i < |out| && 0 <= j < |d.columns| && d.columns[j].name == out[i] ==>
                        r.value.columns[i] == d.columns[j]
  {
    var s := g.learned.value;
    var out := s.outputColumns;
    var d := g.expand(x);
    var filled := ZeroFill(d, s.newColumns);
    TransformIsLoc(g, x);
    Selection.LocColumnsByDistinctLabels(filled, out);
    var r := Transform(g, x);
    if r.Ok? {
      forall i, j | 0 <= i < |out| && 0 <= j < |d.columns| && d.columns[j].name == out[i]
        ensures r.value.columns[i] == d.columns[j]
      {
        assert filled.columns[j] == d.columns[j];
      }
    }
  }

  /** Under distinct expanded labels an output column the expansion lacks is a zero column. */
  lemma TransformZeros(g: GetDummies, x: Frame)
    requires g.learned.Some?
    requires Distinct(Labels(g.expand(x)))
    ensures var out := g.learned.value.outputColumns;
            var d := g.expand(x);
            var r := Transform(g, x);
            r.Ok? ==> |r.value.columns| == |out| &&
                      forall i :: 0 <= i < |out| && out[i] !in Labels(d) ==>
                        r.value.columns[i] == ZeroColumn(out[i], |x.index|)
  {
    var s := g.learned.value;
    var out := s.outputColumns;
    var d := g.expand(x);
    var filled := ZeroFill(d, s.newColumns);
    TransformIsLoc(g, x);
    Selection.LocColumnsByDistinctLabels(filled, out);
    var r := Transform(g, x);
    if r.Ok? {
      forall i | 0 <= i < |out| && out[i] !in Labels(d)
        ensures r.value.columns[i] == ZeroColumn(out[i], |x.index|)
      {
        var j :| 0 <= j < |filled.columns| && Labels(filled)[j] == out[i];
        ZeroFilledColumn(d, s.newColumns, j);
      }
    }
  }

  /** Values already present are untouched: an output column the expansion of `t2` produced
      is that very column, name, dtype and values. */
  lemma TransformKeepsExpandedColumns(g: GetDummies, t1: Frame, t2: Frame)
    requires Distinct(Labels(g.expand(t2)))
    ensures var out := Fit(g, t1).learned.value.outputColumns;
            var d := g.expand(t2);
            var r := Transform(Fit(g, t1), t2);
            r.Ok? ==> |r.value.columns| == |out| &&
                      forall i, j :: 0 <= i < |out| && 0 <= j < |d.columns| && d.columns[j].name == out[i] ==>
                        r.value.columns[i] == d.columns[j]
  {
    TransformKeeps(Fit(g, t1), t2);
  }

  /** Missing new columns are zero-filled: a fit-time column that the expansion of `t2` lacks
      is a new column, and comes out as an int64 column of zeros over the rows of `t2`. */
  lemma TransformZeroFillsMissingNew(g: GetDummies, t1: Frame, t2: Frame)
    requires Distinct(Labels(g.expand(t2)))
    ensures var s := Fit(g, t1).learned.value;
            var d := g.expand(t2);
            var r := Transform(Fit(g, t1), t2);
            r.Ok? ==> |r.value.columns| == |s.outputColumns| &&
                      forall i :: 0 <= i < |s.outputColumns| && s.outputColumns[i] !in Labels(d) ==>
                        s.outputColumns[i] in s.newColumns &&
                        r.value.columns[i] == ZeroColumn(s.outputColumns[i], |t2.index|)
  {
    TransformZeros(Fit(g, t1), t2);
    TransformFailsOnMissingPassThrough(g, t1, t2);
  }

  /** Unseen columns are dropped: a column of the expansion of `t2` whose label is not a
      fit-time output column (a category unseen at fit) does not reach the output. */
  lemma TransformDropsUnseen(g: GetDummies, t1: Frame, t2: Frame)
    ensures var out := Fit(g, t1).learned.value.outputColumns;
            var d := g.expand(t2);
            var r := Transform(Fit(g, t1), t2);
            r.Ok? ==> forall j :: 0 <= j < |d.columns| && d.columns[j].name !in out ==>
                        d.columns[j].name !in Labels(r.value)
  {
  }

  /** On the fit-time table itself `transform` is the bare expansion, so `fit_transform`
      equals `pd.get_dummies` of its input. */
  lemma FitTransformIsExpansion(g: GetDummies, x: Frame)
    requires Distinct(Labels(g.expand(x)))
    ensures FitTransform(g, x) == Ok(g.expand(x))
  {
    var d := g.expand(x);
    var fitted := Fit(g, x);
    var s := fitted.learned.value;
    assert forall i :: 0 <= i < |s.newColumns| ==> s.newColumns[i] in Labels(d);
    ZeroFillPresent(d, s.newColumns);
    TransformIsLoc(fitted, x);
    Selection.LocAllLabels(d);
  }

  /** The column count of `transform(t2)` equals that of `fit_transform(t1)` for the same
      encoder, whenever both succeed with distinct expanded labels. */
  lemma ColumnCountFrozen(g: GetDummies, t1: Frame, t2: Frame)
    requires Distinct(Labels(g.expand(t1))) && Distinct(Labels(g.expand(t2)))
    ensures var r := Transform(Fit(g, t1), t2);
            r.Ok? ==> FitTransform(g, t1).Ok? && |r.value.columns| == |FitTransform(g, t1).value.columns|
  {
    TransformLabels(Fit(g, t1), t2);
    FitTransformIsExpansion(g, t1);
  }
}
