/** An in-memory pandas DataFrame: ordered column labels, each label's cells, and a row count. */
module Frames {
  import opened Results
  import opened Text

  /** One cell: an int64 value, a float64 value, a string, or NaN/None. */
  datatype Cell = Int(i: int) | Num(x: real) | Str(s: string) | Missing

  predicate IsNumber(c: Cell)
  {
    c.Int? || c.Num?
  }

  /** The numeric value of a number cell, 0.0 for any other cell. */
  function NumValue(c: Cell): real
  {
    match c
    case Int(i) => i as real
    case Num(x) => x
    case _ => 0.0
  }

  /** str() of a cell, as Series.astype(str) renders it; NaN renders as "nan". */
  function CellText(c: Cell): string
  {
    match c
    case Int(i) => IntText(i)
    case Num(x) => NumText(x)
    case Str(s) => s
    case Missing => "nan"
  }

  /** pd.to_numeric(errors="coerce") followed by fillna(0.0), cell by cell. */
  function ToNumber(c: Cell): (r: Cell)
    ensures IsNumber(r)
    ensures IsNumber(c) ==> r == c
    ensures c.Missing? ==> r == Num(0.0)
    ensures c.Str? ==> r == (match ParseDecimal(c.s) case Some(x) => Num(x) case None => Num(0.0))
  {
    match c
    case Int(_) => c
    case Num(_) => c
    case Str(s) => (match ParseDecimal(s) case Some(x) => Num(x) case None => Num(0.0))
    case Missing => Num(0.0)
  }

  /** astype(str), cell by cell. */
  function ToText(c: Cell): (r: Cell)
    ensures r.Str?
    ensures c.Str? ==> r == c
    ensures c.Missing? ==> r == Str("nan")
    ensures c.Int? ==> r == Str(IntText(c.i))
    ensures c.Num? ==> r == Str(NumText(c.x))
  {
    Str(CellText(c))
  }

  /** A number after a no-break space is unreadable, so the coercion fills it with 0.0. */
  lemma NoBreakSpaceIsZero()
    ensures ToNumber(Str("\U{A0}12")) == Num(0.0)
  {
    ParseNoBreakSpace();
  }

  /** An integer rendered as text is read back, by the numeric coercion, as the same number. */
  lemma IntTextRoundTrip(i: int)
    ensures ToNumber(ToText(Int(i))) == Num(i as real)
  {
    IntTextParses(i);
  }

  lemma ConvertersIdempotent()
    ensures forall c :: ToNumber(ToNumber(c)) == ToNumber(c)
    ensures forall c :: ToText(ToText(c)) == ToText(c)
  {
  }

  predicate DistinctNames(s: seq<string>)
  {
    forall i, j :: 0 <= i < j < |s| ==> s[i] != s[j]
  }

  /** Well-formed tables with the same labels have the same column keys. */
  lemma SameLabelsSameKeys(a: Frame, b: Frame)
    requires a.Valid() && b.Valid() && a.columns == b.columns
    ensures a.data.Keys == b.data.Keys
  {
    assert forall c :: c in a.data <==> c in a.columns;
  }

  /** Two column maps with the same labels and the same cells under each are equal. */
  lemma SameMaps(a: map<string, seq<Cell>>, b: map<string, seq<Cell>>)
    requires a.Keys == b.Keys && forall k :: k in b ==> a[k] == b[k]
    ensures a == b
  {
  }

  /** Where `x` first occurs in `s`. */
  function IndexOf(s: seq<string>, x: string): (k: nat)
    requires x in s
    ensures k < |s| && s[k] == x
    ensures forall j :: 0 <= j < k ==> s[j] != x
  {
    if s[0] == x then 0 else 1 + IndexOf(s[1..], x)
  }

  lemma IndexOfDistinct(s: seq<string>, k: nat)
    requires DistinctNames(s) && k < |s|
    ensures IndexOf(s, s[k]) == k
  {
  }

  /** The halves of a list of distinct names are distinct and share no name. */
  lemma DistinctConcat(a: seq<string>, b: seq<string>)
    requires DistinctNames(a + b)
    ensures DistinctNames(a) && DistinctNames(b)
    ensures forall x :: x in a ==> x !in b
  {
    var s := a + b;
    forall i, j | 0 <= i < j < |b| ensures b[i] != b[j] {
      assert b[i] == s[|a| + i] && b[j] == s[|a| + j];
    }
    forall i, j | 0 <= i < j < |a| ensures a[i] != a[j] {
      assert a[i] == s[i] && a[j] == s[j];
    }
    forall i, j | 0 <= i < |a| && 0 <= j < |b| ensures a[i] != b[j] {
      assert a[i] == s[i] && b[j] == s[|a| + j];
    }
  }

  /** Two lists of distinct names with no name in common concatenate to a list of distinct names. */
  lemma DistinctConcatIntro(a: seq<string>, b: seq<string>)
    requires DistinctNames(a) && DistinctNames(b) && forall x :: x in a ==> x !in b
    ensures DistinctNames(a + b)
  {
    var s := a + b;
    forall i, j | 0 <= i < j < |s| ensures s[i] != s[j] {
      if j < |a| {
        assert s[i] == a[i] && s[j] == a[j];
      } else if i >= |a| {
        assert s[i] == b[i - |a|] && s[j] == b[j - |a|];
      } else {
        assert s[i] == a[i] && a[i] in a && s[j] == b[j - |a|];
      }
    }
  }

  datatype Frame = Frame(columns: seq<string>, data: map<string, seq<Cell>>, rows: nat)
  {
    /** Every label has cells, every column has `rows` cells. Labels may repeat (a reindexed matrix). */
    ghost predicate Valid()
    {
      && (forall c :: c in columns ==> c in data)
      && (forall c :: c in data ==> c in columns && |data[c]| == rows)
    }

    /** No label appears twice, as for a table read by read_csv. */
    ghost predicate Distinct()
    {
      DistinctNames(columns)
    }
  }

  function Constant(n: nat, v: Cell): (col: seq<Cell>)
    ensures |col| == n && forall i :: 0 <= i < n ==> col[i] == v
  {
    seq(n, _ => v)
  }

  function MapCells(col: seq<Cell>, f: Cell -> Cell): (r: seq<Cell>)
    ensures |r| == |col| && forall i :: 0 <= i < |col| ==> r[i] == f(col[i])
  {
    seq(|col|, i requires 0 <= i < |col| => f(col[i]))
  }

  /** Assigning a column: an existing one is replaced where it stands, a new one is appended. */
  function WithColumn(f: Frame, c: string, col: seq<Cell>): (r: Frame)
    requires f.Valid() && |col| == f.rows
    ensures r.Valid() && r.rows == f.rows
    ensures f.Distinct() ==> r.Distinct()
    ensures r.data == f.data[c := col]
    ensures r.columns == if c in f.data then f.columns else f.columns + [c]
  {
    if c in f.data then Frame(f.columns, f.data[c := col], f.rows)
    else Frame(f.columns + [c], f.data[c := col], f.rows)
  }

  /** One row, as the Series `df.iloc[i]`: label to cell. */
  function RowAt(f: Frame, i: nat): (row: map<string, Cell>)
    requires f.Valid() && i < f.rows
    ensures row.Keys == f.data.Keys
    ensures forall c :: c in f.data ==> row[c] == f.data[c][i]
  {
    map c | c in f.data :: f.data[c][i]
  }
}
