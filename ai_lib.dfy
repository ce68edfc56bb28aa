/** The feature preprocessing of modules/ai_lib.py: raw upload to the model's feature matrix. */
module AiLib {
  import opened Results
  import opened Text
  import opened Frames

  /** The categorical columns that are one-hot encoded. */
  const CoreCategoricalFeatures: seq<string> := ["gender", "region", "income_band", "card_grade"]

  /** The numeric and behavioural columns the model is fed. */
  const HighImportanceFeatures: seq<string> := [
    "marketing_open_rate_6m", "tenure_months", "complaints_6m", "age",
    "spent_change_ratio",
    "login_m1", "login_m2", "login_m3",
    "spent_m1", "spent_m2", "spent_m3",
    "txn_m1", "txn_m2", "txn_m3"
  ]

  /** The six monthly spend columns the derived features need. */
  const SpentM1ToM6: seq<string> := ["spent_m1", "spent_m2", "spent_m3", "spent_m4", "spent_m5", "spent_m6"]

  /** The numeric columns preprocess_data reconciles and coerces (spent_m1..3 appear twice). */
  const NeededNumeric: seq<string> := SpentM1ToM6 + [
    "marketing_open_rate_6m", "tenure_months", "complaints_6m", "age",
    "login_m1", "login_m2", "login_m3",
    "spent_m1", "spent_m2", "spent_m3",
    "txn_m1", "txn_m2", "txn_m3"
  ]

  const DefaultNumeric: real := 0.0
  const DefaultCategory: string := "UNKNOWN"

  // ---------------------------------------------------------------
  // _ensure_columns
  // ---------------------------------------------------------------

  /** One iteration of _ensure_columns: add `c` filled with `v` unless it is already a column. */
  function WithDefault(f: Frame, c: string, v: Cell): (r: Frame)
    requires f.Valid()
    ensures r.Valid() && r.rows == f.rows
  {
    if c in f.data then f else WithColumn(f, c, Constant(f.rows, v))
  }

  /** The column-adding loop of _ensure_columns, as a function of its input frame. */
  function AddMissing(f: Frame, cols: seq<string>, v: Cell): (r: Frame)
    requires f.Valid()
    ensures r.Valid() && r.rows == f.rows
    ensures f.Distinct() ==> r.Distinct()
    ensures f.columns <= r.columns
    ensures forall c :: c in cols ==> c in r.data
    ensures forall c :: c in f.data ==> c in r.data && r.data[c] == f.data[c]
    ensures forall c :: c in r.data && c !in f.data ==> c in cols && r.data[c] == Constant(f.rows, v)
  {
    if cols == [] then f
    else WithDefault(AddMissing(f, cols[..|cols| - 1], v), cols[|cols| - 1], v)
  }

  lemma AddMissingStep(f: Frame, cols: seq<string>, c: string, v: Cell)
    requires f.Valid()
    ensures AddMissing(f, cols + [c], v) == WithDefault(AddMissing(f, cols, v), c, v)
  {
    assert (cols + [c])[..|cols|] == cols;
  }

  lemma AddMissingPrefix(f: Frame, cols: seq<string>, i: nat, v: Cell)
    requires f.Valid() && i < |cols|
    ensures AddMissing(f, cols[..i + 1], v) == WithDefault(AddMissing(f, cols[..i], v), cols[i], v)
  {
    assert cols[..i + 1] == cols[..i] + [cols[i]];
    AddMissingStep(f, cols[..i], cols[i], v);
  }

  /** What the two loops of _ensure_columns leave behind, stated column by column. */
  lemma EnsuredColumns(df: Frame, numericCols: seq<string>, categoricalCols: seq<string>,
                       fillNumeric: real, fillCategory: string)
    requires df.Valid() && df.Distinct()
    ensures var r := AddMissing(AddMissing(df, numericCols, Num(fillNumeric)), categoricalCols, Str(fillCategory));
      && r.Valid() && r.Distinct() && r.rows == df.rows
      && (forall c :: c in numericCols || c in categoricalCols ==> c in r.data)
      && (forall c :: c in df.data ==> c in r.data && r.data[c] == df.data[c])
      && (forall c :: c in r.data && c !in df.data ==>
            r.data[c] == Constant(df.rows, if c in numericCols then Num(fillNumeric) else Str(fillCategory)))
  {
    var a := AddMissing(df, numericCols, Num(fillNumeric));
    var r := AddMissing(a, categoricalCols, Str(fillCategory));
    forall c | c in r.data && c !in df.data
      ensures r.data[c] == Constant(df.rows, if c in numericCols then Num(fillNumeric) else Str(fillCategory))
    {
      if c in a.data {
        assert c in numericCols;
      } else {
        assert c in categoricalCols;
        assert c !in numericCols;
      }
    }
  }

  /**
   * _ensure_columns: fails when the ID column is absent; otherwise returns a copy with every
   * missing numeric column filled with fillNumeric and every missing categorical column with
   * fillCategory. The input is a value and is never changed.
   */
  method EnsureColumns(df: Frame, numericCols: seq<string>, categoricalCols: seq<string>,
                       idCol: string, fillNumeric: real, fillCategory: string)
    returns (r: Result<Frame>)
    requires df.Valid() && df.Distinct()
    ensures r.Err? <==> idCol !in df.data
    ensures r.Ok? ==> r.value == AddMissing(AddMissing(df, numericCols, Num(fillNumeric)),
                                            categoricalCols, Str(fillCategory))
    ensures r.Ok? ==> r.value.Valid() && r.value.Distinct() && r.value.rows == df.rows
    ensures r.Ok? ==> forall c :: c in numericCols || c in categoricalCols ==> c in r.value.data
    ensures r.Ok? ==> forall c :: c in df.data ==> c in r.value.data && r.value.data[c] == df.data[c]
    ensures r.Ok? ==> forall c :: c in r.value.data && c !in df.data ==>
      r.value.data[c] == Constant(df.rows, if c in numericCols then Num(fillNumeric) else Str(fillCategory))
  {
    if idCol !in df.data {
      return Err("ID column '" + idCol + "' is not in the uploaded file");
    }
    var out := FillMissing(df, numericCols, Num(fillNumeric));
    out := FillMissing(out, categoricalCols, Str(fillCategory));
    EnsuredColumns(df, numericCols, categoricalCols, fillNumeric, fillCategory);
    r := Ok(out);
  }

  /** The loop of _ensure_columns: each listed label that is not yet a column is added, filled with `v`. */
  method FillMissing(f: Frame, cols: seq<string>, v: Cell) returns (out: Frame)
    requires f.Valid()
    ensures out == AddMissing(f, cols, v)
  {
    out := f;
    var i := 0;
    while i < |cols|
      invariant 0 <= i <= |cols|
      invariant out == AddMissing(f, cols[..i], v)
    {
      AddMissingPrefix(f, cols, i, v);
      if cols[i] !in out.data {
        out := WithColumn(out, cols[i], Constant(out.rows, v));
      }
      i := i + 1;
    }
    assert cols[..i] == cols;
  }

  // ---------------------------------------------------------------
  // Type coercion loops (pd.to_numeric / astype(str))
  // ---------------------------------------------------------------

  ghost predicate Idempotent(conv: Cell -> Cell)
  {
    forall x :: conv(conv(x)) == conv(x)
  }

  /** Every listed column with `conv` applied to each cell; the other columns untouched. */
  function Converted(f: Frame, cols: seq<string>, conv: Cell -> Cell): (r: Frame)
    requires f.Valid()
    ensures r.Valid() && r.rows == f.rows && r.columns == f.columns
    ensures r.data.Keys == f.data.Keys
    ensures f.Distinct() ==> r.Distinct()
  {
    Frame(f.columns, map c | c in f.data :: if c in cols then MapCells(f.data[c], conv) else f.data[c], f.rows)
  }

  lemma ConvertedStep(f: Frame, cols: seq<string>, c: string, conv: Cell -> Cell)
    requires f.Valid() && c in f.data && Idempotent(conv)
    ensures var g := Converted(f, cols, conv);
      WithColumn(g, c, MapCells(g.data[c], conv)) == Converted(f, cols + [c], conv)
  {
    var g := Converted(f, cols, conv);
    var h := WithColumn(g, c, MapCells(g.data[c], conv));
    var k := Converted(f, cols + [c], conv);
    if c in cols {
      assert MapCells(MapCells(f.data[c], conv), conv) == MapCells(f.data[c], conv);
    }
    assert h.data == k.data;
  }

  /** A coercion loop of preprocess_data: each listed column is replaced by its converted cells. */
  method ConvertColumns(f: Frame, cols: seq<string>, conv: Cell -> Cell) returns (out: Frame)
    requires f.Valid() && Idempotent(conv)
    requires forall c :: c in cols ==> c in f.data
    ensures out == Converted(f, cols, conv)
  {
    out := f;
    assert f.data == Converted(f, [], conv).data;
    var i := 0;
    while i < |cols|
      invariant 0 <= i <= |cols|
      invariant out == Converted(f, cols[..i], conv)
    {
      assert cols[..i + 1] == cols[..i] + [cols[i]];
      ConvertedStep(f, cols[..i], cols[i], conv);
      out := WithColumn(out, cols[i], MapCells(out.data[cols[i]], conv));
      i := i + 1;
    }
    assert cols[..i] == cols;
  }

  // ---------------------------------------------------------------
  // Derived spend features
  // ---------------------------------------------------------------

  function Spend(f: Frame, c: string, i: nat): real
    requires f.Valid() && c in f.data && i < f.rows
  {
    NumValue(f.data[c][i])
  }

  /** recent / (past + 1.0); a zero denominator yields NaN/inf in pandas, here Missing. */
  function RatioCell(recent: real, past: real): (r: Cell)
    ensures past + 1.0 != 0.0 ==> r == Num(recent / (past + 1.0))
    ensures past + 1.0 == 0.0 ==> r == Missing
  {
    if past + 1.0 == 0.0 then Missing else Num(recent / (past + 1.0))
  }

  ghost predicate HasSpendColumns(f: Frame)
  {
    && "spent_m1" in f.data && "spent_m2" in f.data && "spent_m3" in f.data
    && "spent_m4" in f.data && "spent_m5" in f.data && "spent_m6" in f.data
  }

  function Recent(f: Frame, i: nat): real
    requires f.Valid() && HasSpendColumns(f) && i < f.rows
  {
    Spend(f, "spent_m1", i) + Spend(f, "spent_m2", i) + Spend(f, "spent_m3", i)
  }

  function Past(f: Frame, i: nat): real
    requires f.Valid() && HasSpendColumns(f) && i < f.rows
  {
    Spend(f, "spent_m4", i) + Spend(f, "spent_m5", i) + Spend(f, "spent_m6", i)
  }

  function RecentColumn(f: Frame): (col: seq<Cell>)
    requires f.Valid() && HasSpendColumns(f)
    ensures |col| == f.rows && forall i :: 0 <= i < f.rows ==> col[i] == Num(Recent(f, i))
  {
    seq(f.rows, i requires 0 <= i < f.rows => Num(Recent(f, i)))
  }

  function PastColumn(f: Frame): (col: seq<Cell>)
    requires f.Valid() && HasSpendColumns(f)
    ensures |col| == f.rows && forall i :: 0 <= i < f.rows ==> col[i] == Num(Past(f, i))
  {
    seq(f.rows, i requires 0 <= i < f.rows => Num(Past(f, i)))
  }

  /** The ratio reads the two columns just assigned, which hold exactly these sums. */
  function RatioColumn(f: Frame): (col: seq<Cell>)
    requires f.Valid() && HasSpendColumns(f)
    ensures |col| == f.rows && forall i :: 0 <= i < f.rows ==> col[i] == RatioCell(Recent(f, i), Past(f, i))
  {
    seq(f.rows, i requires 0 <= i < f.rows => RatioCell(Recent(f, i), Past(f, i)))
  }

  /** Adds (or overwrites in place) recent_3m_spent, past_3m_spent and spent_change_ratio. */
  function Derived(f: Frame): (r: Frame)
    requires f.Valid() && HasSpendColumns(f)
    ensures r.Valid() && r.rows == f.rows
    ensures f.Distinct() ==> r.Distinct()
    ensures r.data == f.data["recent_3m_spent" := RecentColumn(f)]["past_3m_spent" := PastColumn(f)]
                            ["spent_change_ratio" := RatioColumn(f)]
  {
    var t1 := WithColumn(f, "recent_3m_spent", RecentColumn(f));
    var t2 := WithColumn(t1, "past_3m_spent", PastColumn(f));
    WithColumn(t2, "spent_change_ratio", RatioColumn(f))
  }

  // ---------------------------------------------------------------
  // Column selection: df_temp[[c for c in features_to_use if c in df_temp.columns]]
  // ---------------------------------------------------------------

  function Present(names: seq<string>, f: Frame): (r: seq<string>)
    ensures forall c :: c in r <==> c in names && c in f.data
    ensures DistinctNames(names) ==> DistinctNames(r)
  {
    if names == [] then []
    else
      var init := Present(names[..|names| - 1], f);
      var last := names[|names| - 1];
      assert DistinctNames(names) ==> last !in names[..|names| - 1];
      if last in f.data then init + [last] else init
  }

  function Selected(f: Frame, names: seq<string>): (r: Frame)
    requires f.Valid()
    ensures r.Valid() && r.rows == f.rows && r.columns == Present(names, f)
    ensures forall c :: c in r.data <==> c in f.data && c in names
    ensures forall c :: c in r.data ==> r.data[c] == f.data[c]
  {
    Frame(Present(names, f), map c | c in f.data && c in names :: f.data[c], f.rows)
  }

  // ---------------------------------------------------------------
  // One-hot encoding: pd.get_dummies(df, columns=cats, dtype=int)
  // ---------------------------------------------------------------

  /** The distinct strings of `s`, in order of first appearance. */
  function Uniques(s: seq<string>): (r: seq<string>)
    ensures DistinctNames(r)
    ensures forall x :: x in r <==> x in s
  {
    if s == [] then []
    else
      var u := Uniques(s[..|s| - 1]);
      var last := s[|s| - 1];
      if last in u then u else u + [last]
  }

  function Texts(col: seq<Cell>): (r: seq<string>)
    ensures |r| == |col| && forall i :: 0 <= i < |col| ==> r[i] == CellText(col[i])
  {
    seq(|col|, i requires 0 <= i < |col| => CellText(col[i]))
  }

  /** The indicator column name `{column}_{value}`. */
  function DummyName(c: string, v: string): string
  {
    c + "_" + v
  }

  /** (column, value) for every indicator column, column by column in `cats` order. */
  function DummyPairs(f: Frame, cats: seq<string>): (ps: seq<(string, string)>)
    requires f.Valid() && forall c :: c in cats ==> c in f.data
    ensures forall p :: p in ps <==> p.0 in cats && p.1 in Texts(f.data[p.0])
  {
    if cats == [] then []
    else
      var c := cats[|cats| - 1];
      var vs := Uniques(Texts(f.data[c]));
      var init := DummyPairs(f, cats[..|cats| - 1]);
      var block := seq(|vs|, k requires 0 <= k < |vs| => (c, vs[k]));
      assert forall p :: p in block <==> p.0 == c && p.1 in vs by {
        forall p: (string, string) | p.0 == c && p.1 in vs ensures p in block {
          var k :| 0 <= k < |vs| && vs[k] == p.1;
          assert block[k] == p;
        }
      }
      init + block
  }

  function PairNames(ps: seq<(string, string)>): (r: seq<string>)
    ensures |r| == |ps| && forall k :: 0 <= k < |ps| ==> r[k] == DummyName(ps[k].0, ps[k].1)
  {
    seq(|ps|, k requires 0 <= k < |ps| => DummyName(ps[k].0, ps[k].1))
  }

  /** The 0/1 column for `value`: 1 exactly where the cell's text is `value`. */
  function Indicator(col: seq<Cell>, v: string): (r: seq<Cell>)
    ensures |r| == |col|
    ensures forall i :: 0 <= i < |col| ==> r[i] == Int(if CellText(col[i]) == v then 1 else 0)
  {
    seq(|col|, i requires 0 <= i < |col| => Int(if CellText(col[i]) == v then 1 else 0))
  }

  /** The labels of `cols` that are not encoded, in order. */
  function Remaining(cols: seq<string>, cats: seq<string>): (r: seq<string>)
    ensures forall c :: c in r <==> c in cols && c !in cats
    ensures DistinctNames(cols) ==> DistinctNames(r)
  {
    if cols == [] then []
    else
      var init := Remaining(cols[..|cols| - 1], cats);
      var last := cols[|cols| - 1];
      assert DistinctNames(cols) ==> last !in cols[..|cols| - 1];
      if last in cats then init else init + [last]
  }

  /** The cells of column `n` after get_dummies: an indicator column, or the column as it was. */
  function EncodedCells(f: Frame, ps: seq<(string, string)>, names: seq<string>, n: string): (col: seq<Cell>)
    requires f.Valid() && |names| == |ps| && (forall k :: 0 <= k < |ps| ==> ps[k].0 in f.data)
    requires n in names || n in f.data
    ensures |col| == f.rows
  {
    if n in names then Indicator(f.data[ps[IndexOf(names, n)].0], ps[IndexOf(names, n)].1)
    else f.data[n]
  }

  /**
   * get_dummies: the encoded columns are replaced by one 0/1 column per value seen in this
   * batch. Indicator columns are listed in first-appearance order (pandas sorts them; the
   * reindex that follows erases the difference). A label produced twice is an error, as the
   * reindex of a frame with duplicate labels raises in pandas.
   */
  function Encoded(f: Frame, cats: seq<string>): (r: Result<Frame>)
    requires f.Valid() && forall c :: c in cats ==> c in f.data
    ensures r.Ok? ==> r.value.Valid() && r.value.Distinct() && r.value.rows == f.rows
    ensures r.Ok? ==> r.value.columns == Remaining(f.columns, cats) + PairNames(DummyPairs(f, cats))
  {
    var base := Remaining(f.columns, cats);
    var ps := DummyPairs(f, cats);
    var names := PairNames(ps);
    if !DistinctNames(base + names) then Err("duplicate column labels after one-hot encoding")
    else
      var data := map n | n in base + names :: EncodedCells(f, ps, names, n);
      Ok(Frame(base + names, data, f.rows))
  }

  // ---------------------------------------------------------------
  // Alignment with the model's feature list
  // ---------------------------------------------------------------

  /** [x for x in names if x != dropped] */
  function WithoutLabel(names: seq<string>, dropped: string): (r: seq<string>)
    ensures forall x :: x in r <==> x in names && x != dropped
    ensures |r| <= |names|
  {
    if names == [] then []
    else
      var init := WithoutLabel(names[..|names| - 1], dropped);
      var last := names[|names| - 1];
      if last == dropped then init else init + [last]
  }

  /** reindex(columns=features, fill_value=0): exactly `features`, in order, absent ones all 0. */
  function Reindexed(e: Frame, features: seq<string>): (r: Frame)
    requires e.Valid()
    ensures r.Valid() && r.rows == e.rows && r.columns == features
    ensures forall n :: n in r.data ==> r.data[n] == if n in e.data then e.data[n] else Constant(e.rows, Int(0))
  {
    Frame(features, map n | n in features :: if n in e.data then e.data[n] else Constant(e.rows, Int(0)), e.rows)
  }

  /** Dropping the ID column when present: every column with that label goes. */
  function DropLabel(f: Frame, dropped: string): (r: Frame)
    requires f.Valid()
    ensures r.Valid() && r.rows == f.rows && r.columns == WithoutLabel(f.columns, dropped)
    ensures r.data.Keys == f.data.Keys - {dropped}
    ensures forall n :: n in r.data ==> r.data[n] == f.data[n]
  {
    if dropped in f.data then Frame(WithoutLabel(f.columns, dropped), f.data - {dropped}, f.rows)
    else
      assert WithoutLabel(f.columns, dropped) == f.columns by { WithoutAbsentLabel(f.columns, dropped); }
      f
  }

  lemma {:induction false} WithoutAbsentLabel(names: seq<string>, dropped: string)
    requires dropped !in names
    ensures WithoutLabel(names, dropped) == names
  {
    if names != [] {
      WithoutAbsentLabel(names[..|names| - 1], dropped);
      assert names == names[..|names| - 1] + [names[|names| - 1]];
    }
  }

  // ---------------------------------------------------------------
  // Final dtype loop: object columns go through to_numeric(...).fillna(0.0)
  // ---------------------------------------------------------------

  /** A column pandas would hold with dtype object: it contains a string. */
  predicate HasText(col: seq<Cell>)
  {
    exists i :: 0 <= i < |col| && col[i].Str?
  }

  lemma NumbersHaveNoText(col: seq<Cell>)
    ensures !HasText(MapCells(col, ToNumber))
  {
    var m := MapCells(col, ToNumber);
    forall i | 0 <= i < |m| ensures !m[i].Str? {
      assert IsNumber(m[i]);
    }
  }

  /** What the final loop makes of one column: to_numeric(...).fillna(0.0) if it holds text. */
  function CoercedColumn(col: seq<Cell>): (r: seq<Cell>)
    ensures |r| == |col| && !HasText(r)
    ensures !HasText(col) ==> r == col
    ensures HasText(col) ==> forall i :: 0 <= i < |col| ==> r[i] == ToNumber(col[i])
  {
    NumbersHaveNoText(col);
    if HasText(col) then MapCells(col, ToNumber) else col
  }

  /** One iteration of the final loop. */
  function CoerceIfObject(f: Frame, c: string): (r: Frame)
    requires f.Valid() && c in f.data
    ensures r.Valid() && r.rows == f.rows && r.columns == f.columns
    ensures r.data == f.data[c := CoercedColumn(f.data[c])]
  {
    if HasText(f.data[c]) then WithColumn(f, c, MapCells(f.data[c], ToNumber)) else f
  }

  /** The frame after the final loop has visited the labels in `visited`, in order. */
  function ObjectsCoerced(f: Frame, visited: seq<string>): (r: Frame)
    requires f.Valid() && forall c :: c in visited ==> c in f.data
    ensures r.Valid() && r.rows == f.rows && r.columns == f.columns && r.data.Keys == f.data.Keys
  {
    if visited == [] then f
    else CoerceIfObject(ObjectsCoerced(f, visited[..|visited| - 1]), visited[|visited| - 1])
  }

  /**
   * The loop's effect does not depend on the order or repetition of the labels: each visited
   * column is coerced once, every other column is unchanged.
   */
  lemma {:induction false} ObjectsCoercedColumns(f: Frame, visited: seq<string>)
    requires f.Valid() && forall c :: c in visited ==> c in f.data
    ensures forall c :: c in visited ==> ObjectsCoerced(f, visited).data[c] == CoercedColumn(f.data[c])
    ensures forall c :: c in f.data && c !in visited ==> ObjectsCoerced(f, visited).data[c] == f.data[c]
  {
    if visited != [] {
      var init := visited[..|visited| - 1];
      var c := visited[|visited| - 1];
      assert visited == init + [c];
      ObjectsCoercedColumns(f, init);
    }
  }

  /** The final loop of preprocess_data: every column that still holds text is read as numbers, failures as 0.0. */
  method CoerceObjectColumns(f: Frame) returns (out: Frame)
    requires f.Valid()
    ensures out == ObjectsCoerced(f, f.columns)
  {
    out := f;
    var i := 0;
    while i < |f.columns|
      invariant 0 <= i <= |f.columns|
      invariant out == ObjectsCoerced(f, f.columns[..i])
    {
      var c := f.columns[i];
      assert f.columns[..i + 1][..i] == f.columns[..i];
      if HasText(out.data[c]) {
        out := WithColumn(out, c, MapCells(out.data[c], ToNumber));
      }
      i := i + 1;
    }
    assert f.columns[..i] == f.columns;
  }

  // ---------------------------------------------------------------
  // preprocess_data
  // ---------------------------------------------------------------

  /** The six spend columns are among the required numeric columns. */
  lemma SpendColumnsNeeded()
    ensures "spent_m1" in NeededNumeric && "spent_m2" in NeededNumeric && "spent_m3" in NeededNumeric
    ensures "spent_m4" in NeededNumeric && "spent_m5" in NeededNumeric && "spent_m6" in NeededNumeric
  {
    assert NeededNumeric[..6] == SpentM1ToM6;
  }

  /** The upload after _ensure_columns with preprocess_data's lists and defaults. */
  function Reconciled(df: Frame): (t: Frame)
    requires df.Valid() && df.Distinct()
    ensures t.Valid() && t.Distinct() && t.rows == df.rows
    ensures forall c :: c in NeededNumeric ==> c in t.data
    ensures forall c :: c in CoreCategoricalFeatures ==> c in t.data
  {
    AddMissing(AddMissing(df, NeededNumeric, Num(DefaultNumeric)), CoreCategoricalFeatures, Str(DefaultCategory))
  }

  /** The reconciled upload after the to_numeric and astype(str) loops. */
  function Coerced(df: Frame): (t: Frame)
    requires df.Valid() && df.Distinct()
    ensures t.Valid() && t.Distinct() && t.rows == df.rows
    ensures t.data.Keys == Reconciled(df).data.Keys
    ensures HasSpendColumns(t)
  {
    SpendColumnsNeeded();
    Converted(Converted(Reconciled(df), NeededNumeric, ToNumber), CoreCategoricalFeatures, ToText)
  }

  /** The raw table after reconciliation, coercion and the derived features (df_temp at line 90). */
  function Prepared(df: Frame): (t: Frame)
    requires df.Valid() && df.Distinct()
    ensures t.Valid() && t.Distinct() && t.rows == df.rows
    ensures forall c :: c in CoreCategoricalFeatures ==> c in t.data
  {
    Derived(Coerced(df))
  }

  /** [id_col] + HIGH_IMPORTANCE_FEATURES + CORE_CATEGORICAL_FEATURES */
  function FeaturesToUse(idCol: string): seq<string>
  {
    [idCol] + HighImportanceFeatures + CoreCategoricalFeatures
  }

  /** df_temp restricted to the features the model uses, in that order. */
  function Filtered(df: Frame, idCol: string): (s: Frame)
    requires df.Valid() && df.Distinct()
    ensures s.Valid() && s.rows == df.rows
    ensures forall c :: c in CoreCategoricalFeatures ==> c in s.data
  {
    var t := Prepared(df);
    var s := Selected(t, FeaturesToUse(idCol));
    assert forall c :: c in CoreCategoricalFeatures ==> c in FeaturesToUse(idCol);
    s
  }

  /** The encoded table aligned with the model's features, ID dropped, object columns coerced. */
  function Aligned(e: Frame, features: seq<string>, idCol: string): (x: Frame)
    requires e.Valid()
    ensures x.Valid() && x.rows == e.rows && x.columns == WithoutLabel(features, idCol)
  {
    var d := DropLabel(Reindexed(e, features), idCol);
    ObjectsCoerced(d, d.columns)
  }

  /** preprocess_data as a function of the upload, the model's feature list and the ID dropped. */
  function PreprocessResult(df: Frame, features: seq<string>, idCol: string): (r: Result<Frame>)
    requires df.Valid() && df.Distinct()
    ensures r.Ok? ==> df.rows > 0 && idCol in df.data
    ensures r.Ok? ==> r.value.Valid() && r.value.Distinct() && r.value.rows == df.rows
    ensures r.Ok? ==> r.value.columns == WithoutLabel(features, idCol)
  {
    if df.rows == 0 then Err("input data is empty")
    else if idCol !in df.data then Err("ID column '" + idCol + "' is not in the uploaded file")
    else if idCol in HighImportanceFeatures || idCol in CoreCategoricalFeatures then
      Err("duplicate column labels: the ID column is also a feature column")
    else
      match Encoded(Filtered(df, idCol), CoreCategoricalFeatures)
      case Err(m) => Err(m)
      case Ok(e) =>
        if !DistinctNames(WithoutLabel(features, idCol)) then Err(RepeatedFeature)
        else Ok(Aligned(e, features, idCol))
  }

  /**
   * A feature repeated in the model's list gives the matrix two columns of that label; the final
   * loop then selects a two-column frame, which has no single dtype, and fails.
   */
  const RepeatedFeature := "a model feature is listed twice, so its column has no single dtype"

  /** Lines 64-89 of preprocess_data: reconcile (which checks the ID column), coerce and derive. */
  method Prepare(df: Frame, idCol: string) returns (r: Result<Frame>)
    requires df.Valid() && df.Distinct()
    ensures r.Err? <==> idCol !in df.data
    ensures r.Err? ==> r.msg == "ID column '" + idCol + "' is not in the uploaded file"
    ensures r.Ok? ==> r.value == Prepared(df)
  {
    var ensured := EnsureColumns(df, NeededNumeric, CoreCategoricalFeatures, idCol, DefaultNumeric, DefaultCategory);
    if ensured.Err? {
      return Err("ID column '" + idCol + "' is not in the uploaded file");
    }
    var t := ensured.value;
    assert t == Reconciled(df);
    ConvertersIdempotent();
    t := ConvertColumns(t, NeededNumeric, ToNumber);
    t := ConvertColumns(t, CoreCategoricalFeatures, ToText);
    assert t == Coerced(df);
    r := Ok(Derived(t));
  }

  /** preprocess_data, step by step as the source runs it. */
  method Preprocess(df: Frame, features: seq<string>, idCol: string) returns (r: Result<Frame>)
    requires df.Valid() && df.Distinct()
    ensures r == PreprocessResult(df, features, idCol)
  {
    if df.rows == 0 {
      return Err("input data is empty");
    }
    var prepared := Prepare(df, idCol);
    if prepared.Err? {
      return Err(prepared.msg);
    }
    var t := prepared.value;
    if idCol in HighImportanceFeatures || idCol in CoreCategoricalFeatures {
      return Err("duplicate column labels: the ID column is also a feature column");
    }
    var filtered := Selected(t, FeaturesToUse(idCol));
    assert filtered == Filtered(df, idCol);
    var encoded := Encoded(filtered, CoreCategoricalFeatures);
    if encoded.Err? {
      return Err(encoded.msg);
    }
    var processed := Reindexed(encoded.value, features);
    processed := DropLabel(processed, idCol);
    if !DistinctNames(processed.columns) {
      return Err(RepeatedFeature);
    }
    processed := CoerceObjectColumns(processed);
    r := Ok(processed);
  }
}
