/** A concrete expansion for `GetDummies`: a plain one-hot encoding standing in for
    `pd.get_dummies` with its default keyword arguments. It is one admissible `Expansion`,
    not a claim about pandas' internals: it encodes the object and category columns, puts
    the other columns first and then one uint8 indicator column per category, named
    `<column>_<category>`, with the categories of a column listed by `Categories` and
    missing values getting no indicator. A category column here carries no declared
    categories, so its indicators are those of the observed values, like an object column's;
    pandas instead uses the declared categories in their declared order, unobserved ones
    included. */
module OneHot {
  import opened Outcomes
  import opened Positions
  import opened Frames
  import Dummies

  /** The columns encoded when no column list is given. */
  predicate Encoded(c: Column) {
    c.dtype == Object || c.dtype == Category
  }

  /** Decimal digits of a natural number. */
  function Digits(n: nat): (s: string)
    ensures |s| > 0
    decreases n
  {
    var d := ['0', '1', '2', '3', '4', '5', '6', '7', '8', '9'][n % 10];
    if n < 10 then [d] else Digits(n / 10) + [d]
  }

  /** The text of a cell, as it appears in an indicator column's name. */
  function Show(v: Value): string {
    match v
    case Int(i) => if i < 0 then "-" + Digits(-i) else Digits(i)
    case Text(s) => s
    case Flag(b) => if b then "True" else "False"
    case Missing => "nan"
  }

  /** Lexicographic order on strings. */
  predicate Before(a: string, b: string)
    decreases |a|
  {
    if a == [] then b != []
    else if b == [] then false
    else if a[0] != b[0] then a[0] < b[0]
    else Before(a[1..], b[1..])
  }

  /** No string comes before itself. */
  lemma {:induction false} BeforeIrreflexive(a: string)
    ensures !Before(a, a)
    decreases |a|
  {
    if a != [] {
      BeforeIrreflexive(a[1..]);
    }
  }

  /** Text order is transitive. */
  lemma {:induction false} BeforeTransitive(a: string, b: string, c: string)
    requires Before(a, b) && Before(b, c)
    ensures Before(a, c)
    decreases |a|
  {
    if a != [] && a[0] == b[0] && b[0] == c[0] {
      BeforeTransitive(a[1..], b[1..], c[1..]);
    }
  }

  /** Of two different strings, one comes before the other. */
  lemma {:induction false} BeforeTotal(a: string, b: string)
    requires a != b
    ensures Before(a, b) || Before(b, a)
    decreases |a|
  {
    if a != [] && b != [] && a[0] == b[0] {
      assert a == [a[0]] + a[1..] && b == [b[0]] + b[1..];
      BeforeTotal(a[1..], b[1..]);
    }
  }

  /** A list strictly ascending in text order. */
  predicate Ascending(s: seq<string>) {
    forall i, j :: 0 <= i < j < |s| ==> Before(s[i], s[j])
  }

  /** A strictly ascending list has no repeats. */
  lemma AscendingDistinct(s: seq<string>)
    requires Ascending(s)
    ensures Distinct(s)
  {
    forall i, j | 0 <= i < j < |s|
      ensures s[i] != s[j]
    {
      BeforeIrreflexive(s[i]);
    }
  }

  /** Inserts `s` into a list meant to be ascending: before the first element that `s`
      comes before, and not at all when it meets an equal element first. */
  function Insert(s: string, sorted: seq<string>): (r: seq<string>)
    ensures s in r
    ensures forall x :: x in r <==> x == s || x in sorted
    decreases |sorted|
  {
    if sorted == [] then [s]
    else if s == sorted[0] then sorted
    else if Before(s, sorted[0]) then [s] + sorted
    else [sorted[0]] + Insert(s, sorted[1..])
  }

  /** Inserting into an ascending list keeps it ascending. */
  lemma {:induction false} InsertAscending(s: string, sorted: seq<string>)
    requires Ascending(sorted)
    ensures Ascending(Insert(s, sorted))
    decreases |sorted|
  {
    if sorted != [] && s != sorted[0] {
      if Before(s, sorted[0]) {
        forall j | 0 < j < |sorted|
          ensures Before(s, sorted[j])
        {
          BeforeTransitive(s, sorted[0], sorted[j]);
        }
      } else {
        BeforeTotal(s, sorted[0]);
        var rest := sorted[1..];
        assert Ascending(rest) by {
          forall i, j | 0 <= i < j < |rest|
            ensures Before(rest[i], rest[j])
          {
            assert rest[i] == sorted[i + 1] && rest[j] == sorted[j + 1];
          }
        }
        InsertAscending(s, rest);
        var tail := Insert(s, rest);
        forall x | x in tail
          ensures Before(sorted[0], x)
        {
          if x != s {
            var j :| 0 <= j < |rest| && rest[j] == x;
            assert sorted[j + 1] == x;
          }
        }
        var r := [sorted[0]] + tail;
        forall i, j | 0 <= i < j < |r|
          ensures Before(r[i], r[j])
        {
          assert r[j] == tail[j - 1] && r[j] in tail;
          if i > 0 {
            assert r[i] == tail[i - 1];
          }
        }
      }
    }
  }

  /** Whether a cell belongs to a category. */
  predicate InCategory(v: Value, cat: string) {
    v != Missing && Show(v) == cat
  }

  /** The categories of a column, built by inserting the text of each non-missing cell with
      `Insert`: the texts of the non-missing cells and nothing else, each once, in text
      order. */
  function Categories(values: seq<Value>): (cats: seq<string>)
    ensures forall r :: 0 <= r < |values| && values[r] != Missing ==> Show(values[r]) in cats
    ensures forall x :: x in cats ==> exists r :: 0 <= r < |values| && InCategory(values[r], x)
    ensures Ascending(cats) && Distinct(cats)
    decreases |values|
  {
    if values == [] then []
    else
      var n := |values| - 1;
      var front := Categories(values[..n]);
      assert forall r :: 0 <= r < n ==> values[..n][r] == values[r];
      var cats := if values[n] == Missing then front else Insert(Show(values[n]), front);
      assert forall x :: x in cats ==> exists r :: 0 <= r < |values| && InCategory(values[r], x) by {
        forall x | x in cats
          ensures exists r :: 0 <= r < |values| && InCategory(values[r], x)
        {
          if x in front {
            var r :| 0 <= r < n && InCategory(values[..n][r], x);
            assert InCategory(values[r], x);
          } else {
            assert InCategory(values[n], x);
          }
        }
      }
      assert Ascending(cats) by {
        if values[n] != Missing {
          InsertAscending(Show(values[n]), front);
        }
      }
      AscendingDistinct(cats);
      cats
  }

  /** The name of the indicator column of `name` for the category `cat`. */
  function IndicatorLabel(name: Label, cat: string): Label {
    name + "_" + cat
  }

  /** An indicator's name is never its column's name, and different categories of a column
      get different names. */
  lemma IndicatorLabelsDiffer(name: Label, c: string, d: string)
    ensures IndicatorLabel(name, c) != name
    ensures c != d ==> IndicatorLabel(name, c) != IndicatorLabel(name, d)
  {
    assert IndicatorLabel(name, c)[|name| + 1..] == c;
    assert IndicatorLabel(name, d)[|name| + 1..] == d;
  }

  /** The indicator columns of one encoded column over `n` rows. */
  function Indicators(c: Column, n: nat): (cs: seq<Column>)
    requires |c.values| == n
    ensures forall d :: d in cs ==> |d.values| == n && d.dtype == UInt8
    ensures |cs| == |Categories(c.values)|
    ensures forall k :: 0 <= k < |cs| ==> cs[k].name == IndicatorLabel(c.name, Categories(c.values)[k])
    ensures forall k, r :: 0 <= k < |cs| && 0 <= r < n ==>
              (cs[k].values[r] == Int(1) <==> InCategory(c.values[r], Categories(c.values)[k]))
    ensures forall k, r :: 0 <= k < |cs| && 0 <= r < n ==> cs[k].values[r] in {Int(0), Int(1)}
    ensures forall j, k :: 0 <= j < k < |cs| ==> cs[j].name != cs[k].name
  {
    var cats := Categories(c.values);
    assert forall j, k :: 0 <= j < k < |cats| ==> IndicatorLabel(c.name, cats[j]) != IndicatorLabel(c.name, cats[k]) by {
      forall j, k | 0 <= j < k < |cats|
        ensures IndicatorLabel(c.name, cats[j]) != IndicatorLabel(c.name, cats[k])
      {
        IndicatorLabelsDiffer(c.name, cats[j], cats[k]);
      }
    }
    seq(|cats|, k requires 0 <= k < |cats| =>
      Column(IndicatorLabel(c.name, cats[k]), UInt8,
             seq(n, r requires 0 <= r < n => if InCategory(c.values[r], cats[k]) then Int(1) else Int(0))))
  }

  /** The columns left as they are, in their order. */
  function PassThrough(cols: seq<Column>): (r: seq<Column>)
    ensures forall c :: c in r ==> c in cols && !Encoded(c)
  {
    if cols == [] then []
    else (if Encoded(cols[0]) then [] else [cols[0]]) + PassThrough(cols[1..])
  }

  /** The indicator columns of every encoded column, block by block. */
  function DummyColumns(cols: seq<Column>, n: nat): (r: seq<Column>)
    requires forall c :: c in cols ==> |c.values| == n
    ensures forall d :: d in r ==> |d.values| == n
  {
    if cols == [] then []
    else (if Encoded(cols[0]) then Indicators(cols[0], n) else []) + DummyColumns(cols[1..], n)
  }

  /** The expansion of a table; it keeps the row index. */
  function Expand(t: Frame): (r: Frame)
    ensures r.index == t.index
  {
    Table(t.index, PassThrough(t.columns) + DummyColumns(t.columns, |t.index|))
  }

  /** `Expand` is an admissible expansion for the encoder. */
  const Expansion: Dummies.Expansion := Expand

  /** A batch with one object column over the given rows. */
  function Batch(name: Label, rows: seq<RowKey>, cells: seq<Value>): (t: Frame)
    requires |cells| == |rows|
    ensures t.index == rows && Labels(t) == [name]
  {
    Table(rows, [Column(name, Object, cells)])
  }

  /** Two cells of `a` and one of `b`, with `b` first in text order: two categories. */
  lemma TwoCategories(a: string, b: string)
    requires Before(b, a)
    ensures Categories([Text(a), Text(a), Text(b)]) == [b, a]
  {
    BeforeIrreflexive(b);
    assert [Text(a), Text(a), Text(b)][..2] == [Text(a), Text(a)];
    assert [Text(a), Text(a)][..1] == [Text(a)];
    assert [Text(a)][..0] == [];
    assert Categories([Text(a)]) == [a];
    assert Categories([Text(a), Text(a)]) == [a];
    assert Insert(b, [a]) == [b, a];
  }

  /** A single cell of `c`: one category. */
  lemma OneCategory(c: string)
    ensures Categories([Text(c)]) == [c]
  {
    assert [Text(c)][..0] == [];
  }

  /** A table made of one encoded column expands to that column's indicators. */
  lemma SingleEncodedColumn(t: Frame)
    requires |t.columns| == 1 && Encoded(t.columns[0])
    ensures Expand(t).columns == Indicators(t.columns[0], |t.index|)
  {
    var c := t.columns[0];
    assert c in t.columns;
    assert t.columns[1..] == [];
    assert PassThrough(t.columns) == [];
    assert DummyColumns(t.columns, |t.index|) == Indicators(c, |t.index|) + DummyColumns([], |t.index|);
  }

  /** The labels of that expansion: one per category, in category order. */
  lemma SingleEncodedLabels(t: Frame, cats: seq<string>)
    requires |t.columns| == 1 && Encoded(t.columns[0])
    requires Categories(t.columns[0].values) == cats
    ensures |Labels(Expand(t))| == |cats|
    ensures forall k :: 0 <= k < |cats| ==> Labels(Expand(t))[k] == IndicatorLabel(t.columns[0].name, cats[k])
  {
    SingleEncodedColumn(t);
  }

  /** A batch holding `a`, `a`, `b`, with `b` first in text order, expands to the indicators
      of `b` and of `a`, in that order, through any encoder using this expansion. */
  lemma TwoCategoryLabels(g: Dummies.GetDummies, name: Label, rows: seq<RowKey>, a: string, b: string)
    requires g.expand == Expansion && |rows| == 3 && Before(b, a)
    ensures Labels(g.expand(Batch(name, rows, [Text(a), Text(a), Text(b)])))
            == [IndicatorLabel(name, b), IndicatorLabel(name, a)]
  {
    var t := Batch(name, rows, [Text(a), Text(a), Text(b)]);
    TwoCategories(a, b);
    SingleEncodedLabels(t, [b, a]);
  }

  /** A one-row batch holding `c` expands to the indicator of `c` alone. */
  lemma OneCategoryLabels(g: Dummies.GetDummies, name: Label, rows: seq<RowKey>, c: string)
    requires g.expand == Expansion && |rows| == 1
    ensures Labels(g.expand(Batch(name, rows, [Text(c)]))) == [IndicatorLabel(name, c)]
  {
    OneCategory(c);
    SingleEncodedLabels(Batch(name, rows, [Text(c)]), [c]);
  }

  /** Fitted on a batch holding `a`, `a`, `b` that expands to the indicators of `b` and
      `a`, the encoder learns those two labels, and both are new columns. */
  lemma TwoCategoryFit(g: Dummies.GetDummies, name: Label, rows: seq<RowKey>, a: string, b: string)
    requires |rows| == 3
    requires Labels(g.expand(Batch(name, rows, [Text(a), Text(a), Text(b)])))
            == [IndicatorLabel(name, b), IndicatorLabel(name, a)]
    ensures Dummies.Fit(g, Batch(name, rows, [Text(a), Text(a), Text(b)])).learned
            == Some(Dummies.Schema([IndicatorLabel(name, b), IndicatorLabel(name, a)],
                                   [IndicatorLabel(name, b), IndicatorLabel(name, a)]))
  {
    IndicatorLabelsDiffer(name, a, b);
    IndicatorLabelsDiffer(name, b, a);
    Dummies.FitAllNew(g, Batch(name, rows, [Text(a), Text(a), Text(b)]),
                      [IndicatorLabel(name, b), IndicatorLabel(name, a)]);
  }

  /** After that fit, a one-row batch whose only category `c` was not seen, and which
      expands to the indicator of `c`, comes out as the two fitted indicator columns, both
      zero; the indicator of `c` is dropped. */
  lemma UnseenCategoryTransform(g: Dummies.GetDummies, name: Label, rows: seq<RowKey>, a: string, b: string, c: string)
    requires |rows| == 1 && c != a && c != b
    requires Labels(g.expand(Batch(name, rows, [Text(c)]))) == [IndicatorLabel(name, c)]
    requires g.learned == Some(Dummies.Schema([IndicatorLabel(name, b), IndicatorLabel(name, a)],
                                              [IndicatorLabel(name, b), IndicatorLabel(name, a)]))
    ensures var r := Dummies.Transform(g, Batch(name, rows, [Text(c)]));
            && r.Ok? && r.value.index == rows && |r.value.columns| == 2
            && r.value.columns[0] == Dummies.ZeroColumn(IndicatorLabel(name, b), 1)
            && r.value.columns[1] == Dummies.ZeroColumn(IndicatorLabel(name, a), 1)
  {
    IndicatorLabelsDiffer(name, c, a);
    IndicatorLabelsDiffer(name, c, b);
    Dummies.TwoUnseenColumns(g, Batch(name, rows, [Text(c)]), IndicatorLabel(name, b), IndicatorLabel(name, a));
  }

  /** Fitted on colors red, red, blue, the encoder learns `color_blue` and `color_red`,
      both new. */
  lemma ScenarioFit(g: Dummies.GetDummies, rows: seq<RowKey>)
    requires g.expand == Expansion && |rows| == 3
    ensures Dummies.Fit(g, Batch("color", rows, [Text("red"), Text("red"), Text("blue")])).learned
            == Some(Dummies.Schema([IndicatorLabel("color", "blue"), IndicatorLabel("color", "red")],
                                   [IndicatorLabel("color", "blue"), IndicatorLabel("color", "red")]))
  {
    assert Before("blue", "red");
    TwoCategoryLabels(g, "color", rows, "red", "blue");
    TwoCategoryFit(g, "color", rows, "red", "blue");
  }

  /** That encoder turns a one-row batch colored green into zero `color_blue` and
      `color_red` columns, and drops `color_green`. */
  lemma ScenarioTransform(g: Dummies.GetDummies, rows: seq<RowKey>)
    requires g.expand == Expansion && |rows| == 1
    requires g.learned == Some(Dummies.Schema([IndicatorLabel("color", "blue"), IndicatorLabel("color", "red")],
                                              [IndicatorLabel("color", "blue"), IndicatorLabel("color", "red")]))
    ensures var r := Dummies.Transform(g, Batch("color", rows, [Text("green")]));
            && r.Ok? && r.value.index == rows && |r.value.columns| == 2
            && r.value.columns[0] == Dummies.ZeroColumn(IndicatorLabel("color", "blue"), 1)
            && r.value.columns[1] == Dummies.ZeroColumn(IndicatorLabel("color", "red"), 1)
  {
    OneCategoryLabels(g, "color", rows, "green");
    UnseenCategoryTransform(g, "color", rows, "red", "blue", "green");
  }
}
