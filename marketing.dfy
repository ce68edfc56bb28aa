/**
 * The data helpers of the retention-marketing page (modules/marketing_strategy.py):
 * label cleaning, the at-risk segment, the customer profile handed to the
 * text generator, the segment summary, the star rating, and the recovery of
 * a JSON object from a reply that has text around it.
 */
module Marketing {
  import opened Results
  import opened Text
  import opened Frames
  import Sorting

  // ---------------------------------------------------------------------
  // _clean_columns
  // ---------------------------------------------------------------------

  const Bom: char := '\U{FEFF}'

  /** One label with every byte-order mark removed, then stripped. */
  function CleanName(s: string): (r: string)
    ensures Bom !in r
    ensures r == [] || (!IsSpace(r[0]) && !IsSpace(r[|r| - 1]))
  {
    var t := RemoveChar(s, Bom);
    StripIsTrimmedInfix(t);
    InfixLacks(t, StripStart(t), Strip(t), Bom);
    Strip(t)
  }

  /**
   * A cleaned label is the label with its byte-order marks removed and then
   * only whitespace trimmed from each end: it is an infix of that text, and
   * what lies before and after it is whitespace.
   */
  lemma CleanNameTrims(s: string)
    ensures var r, t := CleanName(s), RemoveChar(s, Bom); var a := StripStart(t);
      && a + |r| <= |t| && r == t[a..a + |r|]
      && (forall i :: 0 <= i < a ==> IsSpace(t[i]))
      && (forall i :: a + |r| <= i < |t| ==> IsSpace(t[i]))
  {
    StripIsTrimmedInfix(RemoveChar(s, Bom));
  }

  /** A character missing from a text is missing from each of its infixes. */
  lemma InfixLacks(t: string, a: nat, r: string, c: char)
    requires a + |r| <= |t| && r == t[a..a + |r|] && c !in t
    ensures c !in r
  {
    forall k | 0 <= k < |r| ensures r[k] != c {
      assert r[k] == t[a + k];
    }
  }

  /** Cleaning a clean label changes nothing. */
  lemma CleanNameIdempotent(s: string)
    ensures CleanName(CleanName(s)) == CleanName(s)
  {
    var r := CleanName(s);
    RemoveAbsentChar(r, Bom);
    StripIdempotent(RemoveChar(s, Bom));
  }

  /** The cleaned labels, in the original order. */
  function CleanNames(cols: seq<string>): (r: seq<string>)
    ensures |r| == |cols| && forall i :: 0 <= i < |cols| ==> r[i] == CleanName(cols[i])
  {
    seq(|cols|, i requires 0 <= i < |cols| => CleanName(cols[i]))
  }

  /**
   * A copy whose labels lose every byte-order mark and their surrounding whitespace. Two labels
   * that clean to the same text are refused, where pandas would keep both.
   */
  function CleanColumns(f: Frame): (r: Result<Frame>)
    requires f.Valid()
    ensures r.Ok? <==> DistinctNames(CleanNames(f.columns))
    ensures r.Ok? ==> r.value.Valid() && r.value.Distinct() && r.value.rows == f.rows
    ensures r.Ok? ==> r.value.columns == CleanNames(f.columns)
  {
    var names := CleanNames(f.columns);
    if !DistinctNames(names) then Err("column labels collide once cleaned")
    else Ok(Frame(names, map k | k in names :: f.data[f.columns[IndexOf(names, k)]], f.rows))
  }

  /** Cleaning keeps order and contents: label `i` is cleaned and still holds column `i`'s cells. */
  lemma CleanColumnsCells(f: Frame, i: nat)
    requires f.Valid() && CleanColumns(f).Ok? && i < |f.columns|
    ensures var g := CleanColumns(f).value;
      g.columns[i] == CleanName(f.columns[i]) && g.columns[i] in g.data && g.data[g.columns[i]] == f.data[f.columns[i]]
    ensures Bom !in CleanColumns(f).value.columns[i]
  {
    IndexOfDistinct(CleanNames(f.columns), i);
  }

  /** Cleaning twice is cleaning once. */
  lemma CleanColumnsIdempotent(f: Frame)
    requires f.Valid() && CleanColumns(f).Ok?
    ensures CleanColumns(CleanColumns(f).value) == CleanColumns(f)
  {
    var g := CleanColumns(f).value;
    CleanNamesIdempotent(f.columns);
    CleanIdentity(g);
  }

  lemma CleanNamesIdempotent(cols: seq<string>)
    ensures CleanNames(CleanNames(cols)) == CleanNames(cols)
  {
    forall i | 0 <= i < |cols| ensures CleanName(CleanName(cols[i])) == CleanName(cols[i]) {
      CleanNameIdempotent(cols[i]);
    }
  }

  /** A table whose labels are already clean comes back unchanged. */
  lemma CleanIdentity(g: Frame)
    requires g.Valid() && g.Distinct() && CleanNames(g.columns) == g.columns
    ensures CleanColumns(g) == Ok(g)
  {
    CleanKeepsCells(g);
  }

  /** With every label already clean, the cleaned table holds the same cells. */
  lemma CleanKeepsCells(g: Frame)
    requires g.Valid() && CleanColumns(g).Ok? && CleanColumns(g).value.columns == g.columns
    ensures CleanColumns(g).value.data == g.data
  {
    var h := CleanColumns(g).value;
    CleanKeepsCell(g);
    SameLabelsSameKeys(h, g);
    SameMaps(h.data, g.data);
  }

  lemma CleanKeepsCell(g: Frame)
    requires g.Valid() && CleanColumns(g).Ok? && CleanColumns(g).value.columns == g.columns
    ensures var h := CleanColumns(g).value;
      forall k :: k in g.data ==> k in h.data && h.data[k] == g.data[k]
  {
    var h := CleanColumns(g).value;
    forall k | k in g.data ensures k in h.data && h.data[k] == g.data[k] {
      CleanColumnsCells(g, IndexOf(g.columns, k));
    }
  }

  // ---------------------------------------------------------------------
  // _build_segment
  // ---------------------------------------------------------------------

  /** A row as a record: label to cell. */
  type Row = map<string, Cell>

  const IdColumn := "customer_id"
  const ProbaColumn := "churn_proba"
  const GroupColumn := "risk_group"
  const TierColumn := "risk_tier"

  /** The columns the prediction table must have, in sorted() order for the message. */
  const RequiredPrediction: seq<string> := ["churn_proba", "customer_id", "risk_group", "risk_tier"]

  /** The required prediction columns the table lacks, in sorted order. */
  function MissingRequired(f: Frame): (r: seq<string>)
    ensures forall c :: c in r <==> c in RequiredPrediction && c !in f.data
  {
    Absent(RequiredPrediction, f.data.Keys)
  }

  /** The names of `names` outside `present`, in order. */
  function Absent(names: seq<string>, present: set<string>): (r: seq<string>)
    ensures forall c :: c in r <==> c in names && c !in present
  {
    if names == [] then []
    else (if names[0] in present then [] else [names[0]]) + Absent(names[1..], present)
  }

  /** A list of labels as Python prints it: ['a', 'b']. */
  function ListText(names: seq<string>): string
  {
    "[" + Quoted(names) + "]"
  }

  function Quoted(names: seq<string>): string
  {
    if names == [] then ""
    else if |names| == 1 then "'" + names[0] + "'"
    else "'" + names[0] + "', " + Quoted(names[1..])
  }

  /** The cleaned copy with its customer_id cells converted to text. */
  function WithTextIds(f: Frame): (r: Frame)
    requires f.Valid() && IdColumn in f.data
    ensures r.Valid() && r.rows == f.rows && r.columns == f.columns && r.data.Keys == f.data.Keys
    ensures r.data[IdColumn] == MapCells(f.data[IdColumn], ToText)
    ensures forall c :: c in f.data && c != IdColumn ==> r.data[c] == f.data[c]
  {
    WithColumn(f, IdColumn, MapCells(f.data[IdColumn], ToText))
  }

  /** The rows among the first `n` of `raw` whose id is `id`, in table order. */
  function Matches(raw: Frame, id: Cell, n: nat): (js: seq<nat>)
    requires raw.Valid() && IdColumn in raw.data && n <= raw.rows
    ensures forall k :: 0 <= k < |js| ==> js[k] < n && raw.data[IdColumn][js[k]] == id
  {
    if n == 0 then []
    else
      var init := Matches(raw, id, n - 1);
      if raw.data[IdColumn][n - 1] == id then init + [n - 1] else init
  }

  /** Both tables are well formed and carry the id column. */
  ghost predicate Joinable(left: Frame, raw: Frame)
  {
    left.Valid() && raw.Valid() && IdColumn in left.data && IdColumn in raw.data
  }

  /**
   * Left row `i` joined with raw row `j` (or with none): the left row's cells,
   * plus the raw columns the left table lacks, NaN when there is no match.
   */
  function Joined(left: Frame, i: nat, raw: Frame, j: Option<nat>): (row: Row)
    requires left.Valid() && raw.Valid() && i < left.rows && (j.Some? ==> j.value < raw.rows)
    ensures forall c :: c in row <==> c in left.data || c in raw.data
    ensures forall c :: c in left.data ==> row[c] == left.data[c][i]
    ensures forall c :: c in raw.data && c !in left.data ==>
              row[c] == if j.Some? then raw.data[c][j.value] else Missing
  {
    map c | c in left.data.Keys + raw.data.Keys ::
      if c in left.data then left.data[c][i] else if j.Some? then raw.data[c][j.value] else Missing
  }

  /** The row holds every cell of left row `i` under its label. */
  ghost predicate FromLeftRow(row: Row, left: Frame, i: nat)
  {
    forall c :: c in left.data ==> c in row && i < |left.data[c]| && row[c] == left.data[c][i]
  }

  /** The merged rows of left row `i`: one per matching raw row, or a single unmatched one. */
  function MergedFor(left: Frame, raw: Frame, i: nat): (rows: seq<Row>)
    requires Joinable(left, raw) && i < left.rows
    ensures |rows| >= 1
    ensures forall k :: 0 <= k < |rows| ==> FromLeftRow(rows[k], left, i)
  {
    var js := Matches(raw, left.data[IdColumn][i], raw.rows);
    if js == [] then [Joined(left, i, raw, None)]
    else seq(|js|, k requires 0 <= k < |js| => Joined(left, i, raw, Some(js[k])))
  }

  /** The merged rows of every left row, grouped by left row. */
  function Groups(left: Frame, raw: Frame): (g: seq<seq<Row>>)
    requires Joinable(left, raw)
    ensures |g| == left.rows
    ensures forall i :: 0 <= i < |g| ==> g[i] == MergedFor(left, raw, i)
  {
    seq(left.rows, i requires 0 <= i < left.rows => MergedFor(left, raw, i))
  }

  /** The groups one after another. */
  function Concat<T>(g: seq<seq<T>>): seq<T>
  {
    if g == [] then [] else Concat(g[..|g| - 1]) + g[|g| - 1]
  }

  /** Each element of the concatenation is an element of one group. */
  lemma {:induction false} ConcatFrom<T>(g: seq<seq<T>>, k: nat) returns (i: nat, m: nat)
    requires k < |Concat(g)|
    ensures i < |g| && m < |g[i]| && Concat(g)[k] == g[i][m]
  {
    var init := Concat(g[..|g| - 1]);
    if k < |init| {
      i, m := ConcatFrom(g[..|g| - 1], k);
    } else {
      i, m := |g| - 1, k - |init|;
    }
  }

  /** Groups of one element each concatenate to as many elements as there are groups. */
  lemma {:induction false} ConcatSingles<T>(g: seq<seq<T>>)
    requires forall i :: 0 <= i < |g| ==> |g[i]| == 1
    ensures |Concat(g)| == |g|
  {
    if g != [] {
      ConcatSingles(g[..|g| - 1]);
    }
  }

  /** Non-empty groups concatenate to at least as many elements as there are groups. */
  lemma {:induction false} ConcatNonEmpty<T>(g: seq<seq<T>>)
    requires forall i :: 0 <= i < |g| ==> |g[i]| >= 1
    ensures |Concat(g)| >= |g|
  {
    if g != [] {
      ConcatNonEmpty(g[..|g| - 1]);
    }
  }

  /** The left merge on the id: every left row in order, each followed by its matches in raw order. */
  function Merged(left: Frame, raw: Frame): (rows: seq<Row>)
    requires Joinable(left, raw)
  {
    Concat(Groups(left, raw))
  }

  /** Every merged row carries all of the cells of one left row, and no left row is lost. */
  lemma MergedFromLeft(left: Frame, raw: Frame, k: nat) returns (i: nat)
    requires Joinable(left, raw) && k < |Merged(left, raw)|
    ensures i < left.rows && FromLeftRow(Merged(left, raw)[k], left, i)
  {
    var m;
    i, m := ConcatFrom(Groups(left, raw), k);
  }

  /** The merge has at least one row per left row. */
  lemma MergedKeepsLeft(left: Frame, raw: Frame)
    requires Joinable(left, raw)
    ensures |Merged(left, raw)| >= left.rows
  {
    ConcatNonEmpty(Groups(left, raw));
  }

  ghost predicate UniqueIds(raw: Frame)
    requires raw.Valid() && IdColumn in raw.data
  {
    forall j, k :: 0 <= j < k < raw.rows ==> raw.data[IdColumn][j] != raw.data[IdColumn][k]
  }

  /** A left join on an id that no raw row repeats has exactly one row per left row. */
  lemma MergedOneToOne(left: Frame, raw: Frame)
    requires Joinable(left, raw) && UniqueIds(raw)
    ensures |Merged(left, raw)| == left.rows
  {
    var g := Groups(left, raw);
    forall i | 0 <= i < |g| ensures |g[i]| == 1 {
      MatchesAtMostOne(raw, left.data[IdColumn][i], raw.rows);
    }
    ConcatSingles(g);
  }

  lemma {:induction false} MatchesAtMostOne(raw: Frame, id: Cell, n: nat)
    requires raw.Valid() && IdColumn in raw.data && n <= raw.rows && UniqueIds(raw)
    ensures |Matches(raw, id, n)| <= 1
  {
    if n > 0 {
      MatchesAtMostOne(raw, id, n - 1);
      var init := Matches(raw, id, n - 1);
      if raw.data[IdColumn][n - 1] == id {
        assert forall j :: 0 <= j < n - 1 ==> raw.data[IdColumn][j] != id;
        MatchesNone(raw, id, n - 1);
      }
    }
  }

  lemma {:induction false} MatchesNone(raw: Frame, id: Cell, n: nat)
    requires raw.Valid() && IdColumn in raw.data && n <= raw.rows
    requires forall j :: 0 <= j < n ==> raw.data[IdColumn][j] != id
    ensures Matches(raw, id, n) == []
  {
    if n > 0 {
      MatchesNone(raw, id, n - 1);
    }
  }

  /** Every raw row with the id is among the matches. */
  lemma {:induction false} MatchesComplete(raw: Frame, id: Cell, n: nat, j: nat)
    requires raw.Valid() && IdColumn in raw.data && n <= raw.rows
    requires j < n && raw.data[IdColumn][j] == id
    ensures j in Matches(raw, id, n)
  {
    if j < n - 1 {
      MatchesComplete(raw, id, n - 1, j);
    }
  }

  /** A raw id that appears twice doubles the matching left row. */
  lemma DuplicateIdMultiplies(left: Frame, raw: Frame, i: nat, j: nat, k: nat)
    requires Joinable(left, raw) && i < left.rows
    requires j < k < raw.rows && raw.data[IdColumn][j] == left.data[IdColumn][i] == raw.data[IdColumn][k]
    ensures |MergedFor(left, raw, i)| >= 2
  {
    var js := Matches(raw, left.data[IdColumn][i], raw.rows);
    MatchesComplete(raw, left.data[IdColumn][i], raw.rows, j);
    MatchesComplete(raw, left.data[IdColumn][i], raw.rows, k);
    var a :| 0 <= a < |js| && js[a] == j;
    var b :| 0 <= b < |js| && js[b] == k;
    assert a != b;
  }

  /** The row's risk_group is `group`. */
  predicate InRiskGroup(x: Row, group: string)
  {
    GroupColumn in x && x[GroupColumn] == Str(group)
  }

  /** The merged rows whose risk_group is `g`, in table order. */
  function InGroup(rows: seq<Row>, group: string): (r: seq<Row>)
    ensures forall x :: x in r <==> x in rows && GroupColumn in x && x[GroupColumn] == Str(group)
    ensures multiset(r) <= multiset(rows)
  {
    if rows == [] then []
    else
      var init := InGroup(rows[..|rows| - 1], group);
      var last := rows[|rows| - 1];
      assert rows == rows[..|rows| - 1] + [last];
      if InRiskGroup(last, group) then init + [last] else init
  }

  /** The filter keeps every copy of a row of the group and no copy of any other row. */
  lemma {:induction false} InGroupCount(rows: seq<Row>, group: string, x: Row)
    ensures multiset(InGroup(rows, group))[x] == if InRiskGroup(x, group) then multiset(rows)[x] else 0
  {
    if rows != [] {
      var init := rows[..|rows| - 1];
      InGroupCount(init, group, x);
      assert rows == init + [rows[|rows| - 1]];
    }
  }

  predicate HasNumericProba(row: Row)
  {
    ProbaColumn in row && IsNumber(row[ProbaColumn])
  }

  function Proba(row: Row): real
  {
    if ProbaColumn in row then NumValue(row[ProbaColumn]) else 0.0
  }

  function NegatedProba(row: Row): real { -Proba(row) }

  /** The rows with a numeric probability, and the rest (NaN), each in table order. */
  function Partition(rows: seq<Row>): (p: (seq<Row>, seq<Row>))
    ensures multiset(p.0) + multiset(p.1) == multiset(rows)
    ensures forall x :: x in p.0 ==> HasNumericProba(x)
    ensures forall x :: x in p.1 ==> !HasNumericProba(x)
  {
    if rows == [] then ([], [])
    else
      var p := Partition(rows[..|rows| - 1]);
      var last := rows[|rows| - 1];
      assert rows == rows[..|rows| - 1] + [last];
      if HasNumericProba(last) then (p.0 + [last], p.1) else (p.0, p.1 + [last])
  }

  /** Sorting by churn_proba, descending: highest first, NaN last; ties in no promised order. */
  function ByProbability(rows: seq<Row>): (r: seq<Row>)
    ensures multiset(r) == multiset(rows)
  {
    var p := Partition(rows);
    Sorting.SortBy(p.0, NegatedProba) + p.1
  }

  /** Highest numeric probability first, and no NaN before a number. */
  ghost predicate ProbabilityOrdered(rows: seq<Row>)
  {
    forall i, j :: 0 <= i < j < |rows| && HasNumericProba(rows[j]) ==>
      HasNumericProba(rows[i]) && Proba(rows[j]) <= Proba(rows[i])
  }

  lemma ByProbabilityOrdered(rows: seq<Row>)
    ensures ProbabilityOrdered(ByProbability(rows))
  {
    var p := Partition(rows);
    var s := Sorting.SortBy(p.0, NegatedProba);
    Sorting.SortBySorted(p.0, NegatedProba);
    var r := s + p.1;
    forall x | x in s ensures HasNumericProba(x) {
      assert x in multiset(s);
    }
    forall k | |s| <= k < |r| ensures !HasNumericProba(r[k]) {
      assert r[k] == p.1[k - |s|];
    }
    forall i, j | 0 <= i < j < |r| && HasNumericProba(r[j])
      ensures HasNumericProba(r[i]) && Proba(r[j]) <= Proba(r[i])
    {
      assert j < |s|;
      assert r[j] == s[j] && r[i] == s[i];
      assert NegatedProba(s[i]) <= NegatedProba(s[j]);
    }
  }

  /** The first `n` rows, or for a negative `n` all but the last `-n` (pandas' head). */
  function Head(rows: seq<Row>, n: int): (r: seq<Row>)
    ensures r <= rows
    ensures n >= 0 ==> |r| == (if n < |rows| then n else |rows|)
    ensures n < 0 ==> |r| == (if |rows| + n > 0 then |rows| + n else 0)
  {
    if n >= 0 then (if n < |rows| then rows[..n] else rows)
    else if |rows| + n > 0 then rows[..|rows| + n] else []
  }

  /** A prefix of an ordered sequence stays ordered. */
  lemma PrefixOrdered(rows: seq<Row>, r: seq<Row>)
    requires ProbabilityOrdered(rows) && r <= rows
    ensures ProbabilityOrdered(r)
  {
    forall i, j | 0 <= i < j < |r| && HasNumericProba(r[j])
      ensures HasNumericProba(r[i]) && Proba(r[j]) <= Proba(r[i])
    {
      assert r[i] == rows[i] && r[j] == rows[j];
    }
  }

  const MissingIdInRaw := "the raw table has no customer_id column"

  function MissingPredictionColumns(missing: seq<string>): string
  {
    "the prediction table lacks required columns: " + ListText(missing)
  }

  /** Keep one group, order it by probability, keep the head. */
  function TopOfGroup(rows: seq<Row>, riskGroup: string, topN: int): seq<Row>
  {
    Head(ByProbability(InGroup(rows, riskGroup)), topN)
  }

  /** Merge, then the top of the group. */
  function SegmentOf(left: Frame, right: Frame, riskGroup: string, topN: int): seq<Row>
    requires Joinable(left, right)
  {
    TopOfGroup(Merged(left, right), riskGroup, topN)
  }

  /**
   * Both tables clean without a collision, the prediction table has all four
   * required columns and the raw table has the id.
   */
  predicate Validated(pred: Frame, raw: Frame)
    requires pred.Valid() && raw.Valid()
  {
    && CleanColumns(pred).Ok? && CleanColumns(raw).Ok?
    && MissingRequired(CleanColumns(pred).value) == []
    && IdColumn in CleanColumns(raw).value.data
  }

  /** The merged rows a segment of two validated tables is drawn from. */
  function MergedInput(pred: Frame, raw: Frame): seq<Row>
    requires pred.Valid() && raw.Valid() && Validated(pred, raw)
  {
    RequiredPresent(CleanColumns(pred).value);
    Merged(WithTextIds(CleanColumns(pred).value), WithTextIds(CleanColumns(raw).value))
  }

  /** The highest-risk customers of one risk group, joined with their raw attributes. */
  function BuildSegment(pred: Frame, raw: Frame, riskGroup: string, topN: int): (r: Result<seq<Row>>)
    requires pred.Valid() && raw.Valid()
    ensures r.Ok? <==> Validated(pred, raw)
  {
    match CleanColumns(pred)
    case Err(m) => Err(m)
    case Ok(p) =>
      match CleanColumns(raw)
      case Err(m) => Err(m)
      case Ok(w) =>
        var missing := MissingRequired(p);
        if missing != [] then Err(MissingPredictionColumns(missing))
        else if IdColumn !in w.data then Err(MissingIdInRaw)
        else Ok(SegmentOf(WithTextIds(p), WithTextIds(w), riskGroup, topN))
  }

  /**
   * With both tables cleaned, the segment is refused exactly when the
   * prediction table lacks one of the four required columns or the raw table
   * lacks the id.
   */
  lemma BuildSegmentRefuses(pred: Frame, raw: Frame, riskGroup: string, topN: int)
    requires pred.Valid() && raw.Valid() && CleanColumns(pred).Ok? && CleanColumns(raw).Ok?
    ensures BuildSegment(pred, raw, riskGroup, topN).Err? <==>
              (exists c :: c in RequiredPrediction && c !in CleanColumns(pred).value.data) ||
              IdColumn !in CleanColumns(raw).value.data
  {
    var p := CleanColumns(pred).value;
    var missing := MissingRequired(p);
    if missing != [] {
      assert missing[0] in RequiredPrediction && missing[0] !in p.data;
    }
  }

  /** No row of `group` left out of `seg` has a number above a row of `seg`. */
  ghost predicate IsTop(seg: seq<Row>, group: seq<Row>)
  {
    forall x, y :: x in multiset(group) - multiset(seg) && y in seg && HasNumericProba(x) ==>
      HasNumericProba(y) && Proba(x) <= Proba(y)
  }

  /** What a prefix leaves of a sequence is the rest of it. */
  lemma LeftOverIsTail(sorted: seq<Row>, seg: seq<Row>)
    requires seg <= sorted
    ensures multiset(sorted) - multiset(seg) == multiset(sorted[|seg|..])
  {
    assert sorted == seg + sorted[|seg|..];
  }

  /** The head of an ordered sequence holds its highest rows. */
  lemma HeadIsTop(sorted: seq<Row>, seg: seq<Row>)
    requires ProbabilityOrdered(sorted) && seg <= sorted
    ensures IsTop(seg, sorted)
  {
    var tail := sorted[|seg|..];
    LeftOverIsTail(sorted, seg);
    forall x, y | x in multiset(sorted) - multiset(seg) && y in seg && HasNumericProba(x)
      ensures HasNumericProba(y) && Proba(x) <= Proba(y)
    {
      var j :| 0 <= j < |tail| && tail[j] == x;
      var i :| 0 <= i < |seg| && seg[i] == y;
      assert sorted[|seg| + j] == x && sorted[i] == y;
    }
  }

  /**
   * The top of a group is drawn from the group's rows without new repeats,
   * holds only rows of the group, is ordered by probability (highest first,
   * NaN last), is as long as `head` allows, and no row of the group it leaves
   * out has a higher probability than a row it keeps.
   */
  lemma TopOfGroupShape(rows: seq<Row>, riskGroup: string, topN: int)
    ensures var seg, group := TopOfGroup(rows, riskGroup, topN), InGroup(rows, riskGroup);
      && multiset(seg) <= multiset(group) <= multiset(rows)
      && (forall x :: x in seg ==> GroupColumn in x && x[GroupColumn] == Str(riskGroup))
      && ProbabilityOrdered(seg)
      && (topN >= 0 ==> |seg| == if topN < |group| then topN else |group|)
      && (topN < 0 ==> |seg| == if |group| + topN > 0 then |group| + topN else 0)
      && IsTop(seg, group)
  {
    var group := InGroup(rows, riskGroup);
    var sorted := ByProbability(group);
    var seg := Head(sorted, topN);
    ByProbabilityOrdered(group);
    PrefixOrdered(sorted, seg);
    HeadIsTop(sorted, seg);
    assert sorted == seg + sorted[|seg|..];
    assert |sorted| == |multiset(sorted)| == |group|;
    forall x | x in seg ensures x in group {
      assert x in multiset(sorted);
    }
  }

  /** Every segment row holds all of the cells of one prediction row. */
  lemma SegmentOfFromLeft(left: Frame, right: Frame, riskGroup: string, topN: int, x: Row) returns (i: nat)
    requires Joinable(left, right)
    requires x in SegmentOf(left, right, riskGroup, topN)
    ensures i < left.rows && FromLeftRow(x, left, i)
  {
    TopOfGroupShape(Merged(left, right), riskGroup, topN);
    var merged := Merged(left, right);
    assert x in multiset(SegmentOf(left, right, riskGroup, topN));
    assert x in multiset(merged);
    var k :| 0 <= k < |merged| && merged[k] == x;
    i := MergedFromLeft(left, right, k);
  }

  /**
   * Every row of a segment carries the four prediction columns, its id as
   * text, and the requested group; the rows are ordered by probability,
   * highest first and NaN last; there are `topN` of them or the whole group
   * if it is smaller; and no merged row of the group left out has a higher
   * probability than a row kept.
   */
  lemma SegmentRows(pred: Frame, raw: Frame, riskGroup: string, topN: int)
    requires pred.Valid() && raw.Valid() && BuildSegment(pred, raw, riskGroup, topN).Ok?
    ensures var seg, group := BuildSegment(pred, raw, riskGroup, topN).value, InGroup(MergedInput(pred, raw), riskGroup);
      && (forall x :: x in seg ==> GroupColumn in x && x[GroupColumn] == Str(riskGroup))
      && (forall x: Row :: x in seg ==> IdColumn in x && x[IdColumn].Str? && ProbaColumn in x && TierColumn in x)
      && ProbabilityOrdered(seg)
      && multiset(seg) <= multiset(group)
      && (topN >= 0 ==> |seg| == if topN < |group| then topN else |group|)
      && IsTop(seg, group)
  {
    var p := CleanColumns(pred).value;
    var left := WithTextIds(p);
    var right := WithTextIds(CleanColumns(raw).value);
    TopOfGroupShape(Merged(left, right), riskGroup, topN);
    RequiredPresent(p);
    forall x: Row | x in SegmentOf(left, right, riskGroup, topN)
      ensures IdColumn in x && x[IdColumn].Str? && ProbaColumn in x && TierColumn in x
    {
      var i := SegmentOfFromLeft(left, right, riskGroup, topN, x);
      assert x[IdColumn] == left.data[IdColumn][i] == ToText(p.data[IdColumn][i]);
    }
  }

  /** With nothing missing, all four required columns are present. */
  lemma RequiredPresent(p: Frame)
    requires MissingRequired(p) == []
    ensures IdColumn in p.data && ProbaColumn in p.data && GroupColumn in p.data && TierColumn in p.data
  {
    assert RequiredPrediction[0] == ProbaColumn && RequiredPrediction[1] == IdColumn;
    assert RequiredPrediction[2] == GroupColumn && RequiredPrediction[3] == TierColumn;
  }

  // ---------------------------------------------------------------------
  // _select_customer_fields
  // ---------------------------------------------------------------------

  /** The profile fields passed on to the text generator, in this order. */
  const Keep: seq<string> := [
    "customer_id", "churn_proba", "risk_tier", "risk_group",
    "age", "gender", "region", "tenure_months", "income_band", "card_grade",
    "contract_cancelled", "complaints_6m", "marketing_open_rate_6m",
    "spent_change_ratio", "recent_3m_spent", "past_3m_spent",
    "total_spent_6m", "total_txn_6m", "total_login_6m",
    "points_balance", "revolving_usage", "cash_service_usage"
  ]

  /** The names of `keep` the row has, in `keep` order. */
  function PresentKeys(keep: seq<string>, row: Row): (r: seq<string>)
    ensures forall k :: k in r <==> k in keep && k in row
    ensures DistinctNames(keep) ==> DistinctNames(r)
  {
    KeysUpTo(keep, row, |keep|)
  }

  /** The names among the first `n` of `keep` the row has, in `keep` order. */
  function KeysUpTo(keep: seq<string>, row: Row, n: nat): (r: seq<string>)
    requires n <= |keep|
    ensures forall k :: k in r <==> k in row && exists i :: 0 <= i < n && keep[i] == k
    ensures DistinctNames(keep) ==> DistinctNames(r)
  {
    if n == 0 then []
    else
      var init := KeysUpTo(keep, row, n - 1);
      if keep[n - 1] in row then init + [keep[n - 1]] else init
  }

  /** NaN becomes None; any other value is kept. */
  function FieldValue(c: Cell): (v: Option<Cell>)
    ensures v.None? <==> c.Missing?
    ensures v.Some? ==> v.value == c
  {
    if c.Missing? then None else Some(c)
  }

  /**
   * The dict built by the loop: one entry per `Keep` name present in the row,
   * in `Keep` order, holding the row's value or None for NaN.
   */
  method SelectCustomerFields(row: Row) returns (out: seq<(string, Option<Cell>)>)
    ensures |out| == |PresentKeys(Keep, row)|
    ensures forall i :: 0 <= i < |out| ==>
              out[i].0 == PresentKeys(Keep, row)[i] && out[i].0 in row && out[i].1 == FieldValue(row[out[i].0])
  {
    out := SelectFields(Keep, row);
  }

  /** The loop of the selection, over any list of names. */
  method SelectFields(keep: seq<string>, row: Row) returns (out: seq<(string, Option<Cell>)>)
    ensures |out| == |PresentKeys(keep, row)|
    ensures forall i :: 0 <= i < |out| ==>
              out[i].0 == PresentKeys(keep, row)[i] && out[i].0 in row && out[i].1 == FieldValue(row[out[i].0])
  {
    out := [];
    var i := 0;
    while i < |keep|
      invariant 0 <= i <= |keep|
      invariant |out| == |KeysUpTo(keep, row, i)|
      invariant forall j :: 0 <= j < |out| ==>
                  out[j].0 == KeysUpTo(keep, row, i)[j] && out[j].0 in row && out[j].1 == FieldValue(row[out[j].0])
    {
      var k := keep[i];
      if k in row {
        out := out + [(k, FieldValue(row[k]))];
      }
      i := i + 1;
    }
  }

  /** The selected keys are exactly the `Keep` names the row has, none twice. */
  lemma SelectedKeys(row: Row)
    ensures forall k :: k in PresentKeys(Keep, row) <==> k in Keep && k in row
    ensures DistinctNames(PresentKeys(Keep, row))
  {
    forall i, j | 0 <= i < j < |Keep| ensures Keep[i] != Keep[j] {
      KeepDistinct(i, j);
    }
  }

  lemma KeepDistinct(i: nat, j: nat)
    requires i < j < |Keep|
    ensures Keep[i] != Keep[j]
  {
  }

  // ---------------------------------------------------------------------
  // _summarize_segment
  // ---------------------------------------------------------------------

  /** The segment size, and whether a mean probability is reported alongside it. */
  datatype Summary = Summary(count: nat, reportsAverage: bool)

  function SummarizeSegment(seg: seq<Row>): (s: Summary)
    ensures s.count == |seg|
    ensures s.reportsAverage ==> seg != []
  {
    if seg == [] then Summary(0, false)
    else Summary(|seg|, ProbaColumn in seg[0])
  }

  /** A non-empty segment always reports a mean, since churn_proba is a required column. */
  lemma SummaryOfSegment(pred: Frame, raw: Frame, riskGroup: string, topN: int)
    requires pred.Valid() && raw.Valid() && BuildSegment(pred, raw, riskGroup, topN).Ok?
    ensures var s := SummarizeSegment(BuildSegment(pred, raw, riskGroup, topN).value);
      (topN >= 0 ==> s.count <= topN) && (s.count > 0 ==> s.reportsAverage)
  {
    SegmentRows(pred, raw, riskGroup, topN);
    var seg := BuildSegment(pred, raw, riskGroup, topN).value;
    if seg != [] {
      assert seg[0] in seg;
    }
  }

  // ---------------------------------------------------------------------
  // _stars
  // ---------------------------------------------------------------------

  const FullStar: char := '\U{2605}'
  const EmptyStar: char := '\U{2606}'

  function Clamp(n: int): (m: int)
    ensures 1 <= m <= 5
    ensures 1 <= n <= 5 ==> m == n
    ensures n < 1 ==> m == 1
    ensures n > 5 ==> m == 5
  {
    if n < 1 then 1 else if n > 5 then 5 else n
  }

  function Repeat(c: char, k: nat): (s: string)
    ensures |s| == k && forall i :: 0 <= i < k ==> s[i] == c
  {
    seq(k, _ => c)
  }

  /** A 1-to-5 rating as five stars, the filled ones first. */
  function Stars(n: int): (r: string)
    ensures |r| == 5
    ensures forall i :: 0 <= i < 5 ==> r[i] == if i < Clamp(n) then FullStar else EmptyStar
  {
    var m := Clamp(n);
    Repeat(FullStar, m) + Repeat(EmptyStar, 5 - m)
  }

  function Count(s: string, c: char): nat
  {
    if s == [] then 0 else (if s[0] == c then 1 else 0) + Count(s[1..], c)
  }

  lemma {:induction false} CountConcat(a: string, b: string, c: char)
    ensures Count(a + b, c) == Count(a, c) + Count(b, c)
  {
    if a != [] {
      assert (a + b)[0] == a[0] && (a + b)[1..] == a[1..] + b;
      CountConcat(a[1..], b, c);
    } else {
      assert a + b == b;
    }
  }

  lemma {:induction false} CountRepeat(d: char, k: nat, c: char)
    ensures Count(Repeat(d, k), c) == if d == c then k else 0
  {
    if k > 0 {
      assert Repeat(d, k)[1..] == Repeat(d, k - 1);
      CountRepeat(d, k - 1, c);
    }
  }

  /** The rating shows clamp(n, 1, 5) filled stars and the rest empty. */
  lemma StarsCount(n: int)
    ensures Count(Stars(n), FullStar) == Clamp(n)
    ensures Count(Stars(n), EmptyStar) == 5 - Clamp(n)
  {
    var m := Clamp(n);
    assert Stars(n) == Repeat(FullStar, m) + Repeat(EmptyStar, 5 - m);
    CountConcat(Repeat(FullStar, m), Repeat(EmptyStar, 5 - m), FullStar);
    CountConcat(Repeat(FullStar, m), Repeat(EmptyStar, 5 - m), EmptyStar);
    CountRepeat(FullStar, m, FullStar);
    CountRepeat(EmptyStar, 5 - m, FullStar);
    CountRepeat(FullStar, m, EmptyStar);
    CountRepeat(EmptyStar, 5 - m, EmptyStar);
  }

  // ---------------------------------------------------------------------
  // The JSON fallback of _call_openai_json
  // ---------------------------------------------------------------------

  /** From the first `{` to the last `}` of `s`, when the last comes after the first. */
  function Braced(s: string): (r: Option<string>)
    ensures r.Some? ==> |r.value| >= 2 && r.value[0] == '{' && r.value[|r.value| - 1] == '}'
  {
    var start := Find(s, '{');
    var end := RFind(s, '}');
    if start != -1 && end != -1 && end > start then Some(s[start..end + 1]) else None
  }

  /**
   * There is no braced span exactly when a `{` or a `}` is missing or the
   * last `}` comes before the first `{`.
   */
  lemma BracedAbsent(s: string)
    ensures Braced(s).None? <==> ('{' !in s || '}' !in s || RFind(s, '}') < Find(s, '{'))
  {
    var a, b := Find(s, '{'), RFind(s, '}');
    assert (a == -1) == ('{' !in s) && (b == -1) == ('}' !in s);
    if a >= 0 && b >= 0 {
      assert s[a] == '{' && s[b] == '}';
    }
  }

  /** The braced span is the infix from the first `{` to the last `}`. */
  lemma BracedSpan(s: string)
    requires Braced(s).Some?
    ensures 0 <= Find(s, '{') < RFind(s, '}') < |s|
    ensures Braced(s).value == s[Find(s, '{')..RFind(s, '}') + 1]
  {
  }

  /** No `{` comes before the braced span and no `}` after it. */
  lemma BracedIsOutermost(s: string)
    requires Braced(s).Some?
    ensures forall i :: 0 <= i < Find(s, '{') ==> s[i] != '{'
    ensures forall i :: RFind(s, '}') < i < |s| ==> s[i] != '}'
  {
    BracedSpan(s);
  }

  /** The braced span of the stripped reply. */
  function JsonSpan(text: string): (r: Option<string>)
    ensures r.Some? ==> |r.value| >= 2 && r.value[0] == '{' && r.value[|r.value| - 1] == '}'
  {
    Braced(Strip(text))
  }

  const ParseFailure := "the text generator's reply could not be parsed as JSON.\n\noriginal:\n"

  /**
   * The reply parsed as JSON, else its outermost braced span parsed, else an
   * error carrying the reply. `parse` stands for the JSON decoder.
   */
  function DecodeResponse<T>(text: string, parse: string -> Option<T>): (r: Result<T>)
    ensures parse(text).Some? ==> r == Ok(parse(text).value)
    ensures r.Err? ==> r.msg == ParseFailure + text
  {
    match parse(text)
    case Some(v) => Ok(v)
    case None =>
      match JsonSpan(text)
      case None => Err(ParseFailure + text)
      case Some(span) =>
        match parse(span)
        case Some(v) => Ok(v)
        case None => Err(ParseFailure + text)
  }

  /** When the whole reply does not parse, success means its outermost braces parsed. */
  lemma DecodeFallback<T>(text: string, parse: string -> Option<T>)
    requires parse(text).None?
    ensures DecodeResponse(text, parse).Ok? <==> JsonSpan(text).Some? && parse(JsonSpan(text).value).Some?
    ensures DecodeResponse(text, parse).Ok? ==> DecodeResponse(text, parse).value == parse(JsonSpan(text).value).value
  {
  }
}
