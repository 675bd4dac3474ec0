/** The tables the transformers consume and produce: a pandas DataFrame seen as an ordered
    list of labelled, typed columns over a shared row index. */
module Frames {
  import opened Positions

  /** A column label. */
  type Label = string

  /** A row-index label. The index may skip values and may repeat them. */
  type RowKey = int

  /** The column dtypes the model distinguishes. */
  datatype Dtype = Int64 | Float64 | UInt8 | Bool | Object | Category

  /** The name pandas gives a dtype, as accepted by `select_dtypes`. */
  function DtypeName(d: Dtype): string {
    match d
    case Int64 => "int64"
    case Float64 => "float64"
    case UInt8 => "uint8"
    case Bool => "bool"
    case Object => "object"
    case Category => "category"
  }

  /** The dtypes that numpy counts as numbers; booleans are not among them. */
  predicate IsNumeric(d: Dtype) {
    d == Int64 || d == Float64 || d == UInt8
  }

  /** A cell: an integer, a text, a boolean or a missing value; float cells are not represented. */
  datatype Value = Int(i: int) | Text(s: string) | Flag(b: bool) | Missing

  datatype Column = Column(name: Label, dtype: Dtype, values: seq<Value>)

  datatype Table = Table(index: seq<RowKey>, columns: seq<Column>)

  /** Every column has one value per row of the index. */
  predicate Aligned(t: Table) {
    forall c :: c in t.columns ==> |c.values| == |t.index|
  }

  /** A well-formed DataFrame. */
  type Frame = t: Table | Aligned(t) witness Table([], [])

  /** A Python value handed to a stage: a DataFrame, or anything else. */
  datatype Data = DataFrame(frame: Frame) | NotFrame

  /** The column labels in column order (`X.columns`). */
  function Labels(t: Table): (ls: seq<Label>)
    ensures |ls| == |t.columns|
    ensures forall i :: 0 <= i < |t.columns| ==> ls[i] == t.columns[i].name
  {
    seq(|t.columns|, i requires 0 <= i < |t.columns| => t.columns[i].name)
  }

  /** The columns at the given positions, over the same row index. */
  function TakeColumns(t: Frame, ps: seq<nat>): (r: Frame)
    requires Within(ps, |t.columns|)
    ensures r.index == t.index
    ensures r.columns == Gather(t.columns, ps)
  {
    Table(t.index, Gather(t.columns, ps))
  }

  /** Row `i` of `r` is row `p` of `t`: the same index key and, column by column, the same
      value. */
  predicate SameRow(r: Table, i: nat, t: Table, p: nat) {
    && i < |r.index| && p < |t.index| && |r.columns| == |t.columns|
    && r.index[i] == t.index[p]
    && forall j :: 0 <= j < |t.columns| ==>
         i < |r.columns[j].values| && p < |t.columns[j].values|
         && r.columns[j].values[i] == t.columns[j].values[p]
  }

  /** Row `i` of `r` is some row of `t`. */
  predicate RowOf(r: Table, i: nat, t: Table) {
    exists p :: 0 <= p < |t.index| && SameRow(r, i, t, p)
  }

  /** The rows at the given positions, with every column kept. */
  function TakeRows(t: Frame, ps: seq<nat>): (r: Frame)
    requires Within(ps, |t.index|)
    ensures r.index == Gather(t.index, ps)
    ensures |r.columns| == |t.columns|
    ensures forall j :: 0 <= j < |t.columns| ==>
              r.columns[j] == t.columns[j].(values := Gather(t.columns[j].values, ps))
    ensures forall i :: 0 <= i < |ps| ==> SameRow(r, i, t, ps[i])
  {
    var cols := seq(|t.columns|, j requires 0 <= j < |t.columns| =>
                      var c := t.columns[j];
                      assert c in t.columns;
                      c.(values := Gather(c.values, ps)));
    Table(Gather(t.index, ps), cols)
  }
}
