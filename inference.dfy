/**
 * Scoring: the classifier's feature list, the positive-class probability,
 * threshold normalisation, risk tiers and their labels, and the scored
 * result table built from an upload.
 */
module Inference {
  import opened Results
  import opened Frames
  import Sorting
  import AiLib

  // ---------------------------------------------------------------------
  // The classifier artifact and its probability output
  // ---------------------------------------------------------------------

  /** A 2-D probability array: `cells` rows, each `width` wide. */
  datatype Matrix = Matrix(cells: seq<seq<real>>, width: nat)
  {
    predicate Rectangular()
    {
      forall i :: 0 <= i < |cells| ==> |cells[i]| == width
    }
  }

  /** Arrays are rectangular by construction. */
  type ProbaMatrix = m: Matrix | m.Rectangular() witness Matrix([], 0)

  /** What `predict_proba` returns: a 1-D or a 2-D array. */
  datatype ProbaOutput = Vector(values: seq<real>) | Table(m: ProbaMatrix)

  /**
   * A fitted classifier as far as scoring sees it: its `predict_proba`
   * (absent when the saved object has none) and its `feature_names_in_`
   * (absent when it was fitted without column names).
   */
  datatype Classifier = Classifier(predictProba: Option<Frame -> ProbaOutput>, featureNamesIn: Option<seq<string>>)

  /** The feature list the loaded model was trained on; a model without one is refused. */
  function ModelFeatures(model: Classifier): (r: Result<seq<string>>)
    ensures r.Ok? <==> model.featureNamesIn.Some?
    ensures r.Ok? ==> r.value == model.featureNamesIn.value
  {
    match model.featureNamesIn
    case None => Err("the model has no feature_names_in_; the training feature list must be stored separately")
    case Some(names) => Ok(names)
  }

  /** Row-major flattening, as `ravel` does. */
  function Flatten(cells: seq<seq<real>>): (r: seq<real>)
  {
    if cells == [] then [] else cells[0] + Flatten(cells[1..])
  }

  /** Flattening rows of one entry each gives those entries, one per row. */
  lemma {:induction false} FlattenSingles(cells: seq<seq<real>>)
    requires forall i :: 0 <= i < |cells| ==> |cells[i]| == 1
    ensures |Flatten(cells)| == |cells|
    ensures forall i :: 0 <= i < |cells| ==> Flatten(cells)[i] == cells[i][0]
  {
    if cells != [] {
      FlattenSingles(cells[1..]);
      var rest := Flatten(cells[1..]);
      assert Flatten(cells) == cells[0] + rest;
      forall i | 0 <= i < |cells| ensures Flatten(cells)[i] == cells[i][0] {
        if i > 0 {
          assert Flatten(cells)[i] == rest[i - 1];
          assert cells[1..][i - 1] == cells[i];
        }
      }
    }
  }

  /** Flattening rows of no entries gives nothing. */
  lemma {:induction false} FlattenEmptyRows(cells: seq<seq<real>>)
    requires forall i :: 0 <= i < |cells| ==> |cells[i]| == 0
    ensures Flatten(cells) == []
  {
    if cells != [] {
      FlattenEmptyRows(cells[1..]);
    }
  }

  /** Column 1 of every row. */
  function SecondColumn(m: ProbaMatrix): (r: seq<real>)
    requires m.width >= 2
    ensures |r| == |m.cells|
    ensures forall i :: 0 <= i < |r| ==> r[i] == m.cells[i][1]
  {
    seq(|m.cells|, i requires 0 <= i < |m.cells| => m.cells[i][1])
  }

  /**
   * The positive-class probability of every row: column 1 of a 2-D output
   * with at least two columns, otherwise the flattened output.
   */
  function AsProb(model: Classifier, x: Frame): (r: Result<seq<real>>)
    ensures r.Err? <==> model.predictProba.None?
    ensures r.Ok? ==> match model.predictProba.value(x)
                      case Vector(v) => r.value == v
                      case Table(m) => r.value == (if m.width >= 2 then SecondColumn(m) else Flatten(m.cells))
  {
    match model.predictProba
    case None => Err("the model has no predict_proba; check how it was saved")
    case Some(predict) =>
      match predict(x)
      case Vector(v) => Ok(v)
      case Table(m) => if m.width >= 2 then Ok(SecondColumn(m)) else Ok(Flatten(m.cells))
  }

  /**
   * A 2-D output gives one probability per row, taken from column 1 when
   * there are two columns or more and from column 0 when there is one.
   */
  lemma AsProbPerRow(model: Classifier, x: Frame, m: ProbaMatrix)
    requires model.predictProba.Some? && model.predictProba.value(x) == Table(m) && m.width >= 1
    ensures AsProb(model, x).Ok?
    ensures |AsProb(model, x).value| == |m.cells|
    ensures forall i :: 0 <= i < |m.cells| ==>
              AsProb(model, x).value[i] == m.cells[i][if m.width >= 2 then 1 else 0]
  {
    if m.width == 1 {
      FlattenSingles(m.cells);
    }
  }

  /** A 2-D output with no columns gives no probabilities at all. */
  lemma AsProbNoColumns(model: Classifier, x: Frame, m: ProbaMatrix)
    requires model.predictProba.Some? && model.predictProba.value(x) == Table(m) && m.width == 0
    ensures AsProb(model, x) == Ok([])
  {
    FlattenEmptyRows(m.cells);
  }

  // ---------------------------------------------------------------------
  // Thresholds
  // ---------------------------------------------------------------------

  /**
   * The stored threshold object: a dict (its entries in insertion order),
   * a list or tuple, or anything else.
   */
  datatype ThresholdArtifact = Mapping(entries: seq<(string, real)>) | Sequence(items: seq<real>) | Unsupported

  /** The three cut points, named after the percentiles they were fitted at. */
  datatype Thresholds = Thresholds(t90: real, t95: real, t99: real)

  const UnreadableThresholds := "cannot interpret the thresholds artifact (a dict with T90/T95/T99 is recommended)"

  /** A dict's keys are unique. */
  ghost predicate UniqueKeys(entries: seq<(string, real)>)
  {
    forall i, j :: 0 <= i < j < |entries| ==> entries[i].0 != entries[j].0
  }

  /** The value stored under `k`. */
  function Lookup(entries: seq<(string, real)>, k: string): (r: Option<real>)
    ensures r.Some? <==> exists i :: 0 <= i < |entries| && entries[i].0 == k
    ensures r.Some? ==> (k, r.value) in entries
  {
    if entries == [] then None
    else if entries[0].0 == k then Some(entries[0].1)
    else
      var r := Lookup(entries[1..], k);
      assert forall i :: 1 <= i < |entries| ==> entries[i] == entries[1..][i - 1];
      r
  }

  /** In a dict, the value looked up under a key is the one stored with it. */
  lemma LookupFinds(entries: seq<(string, real)>, k: string, v: real)
    requires UniqueKeys(entries) && (k, v) in entries
    ensures Lookup(entries, k) == Some(v)
  {
    var r := Lookup(entries, k);
    var i :| 0 <= i < |entries| && entries[i] == (k, v);
    var j :| 0 <= j < |entries| && entries[j] == (k, r.value);
    if i < j {
      assert entries[i].0 == entries[j].0;
    } else if j < i {
      assert entries[j].0 == entries[i].0;
    }
  }

  /** The dict's values in insertion order. */
  function Values(entries: seq<(string, real)>): (r: seq<real>)
    ensures |r| == |entries|
    ensures forall i :: 0 <= i < |r| ==> r[i] == entries[i].1
  {
    seq(|entries|, i requires 0 <= i < |entries| => entries[i].1)
  }

  function Identity(x: real): real { x }

  /** `sorted(vals)`. */
  function Ascending(s: seq<real>): (r: seq<real>)
    ensures multiset(r) == multiset(s) && |r| == |s|
    ensures forall i, j :: 0 <= i < j < |r| ==> r[i] <= r[j]
  {
    Sorting.SortBySorted(s, Identity);
    var r := Sorting.SortBy(s, Identity);
    assert |r| == |multiset(r)| == |multiset(s)| == |s|;
    r
  }

  predicate Labelled(entries: seq<(string, real)>)
  {
    Lookup(entries, "T90").Some? && Lookup(entries, "T95").Some? && Lookup(entries, "T99").Some?
  }

  /** The first three of an ascending sequence. */
  function LowestThree(vals: seq<real>): Thresholds
    requires |vals| >= 3
  {
    Thresholds(vals[0], vals[1], vals[2])
  }

  /**
   * The three cut points: a dict's T90/T95/T99 entries as stored, else the
   * three smallest of its values; a list's first three entries sorted;
   * anything else is refused.
   */
  function GetThresholds(a: ThresholdArtifact): (r: Result<Thresholds>)
    ensures r.Err? ==> r.msg == UnreadableThresholds
    ensures r.Ok? ==> a.Mapping? || a.Sequence?
    ensures r.Ok? && !(a.Mapping? && Labelled(a.entries)) ==> r.value.t90 <= r.value.t95 <= r.value.t99
  {
    match a
    case Mapping(entries) =>
      if Labelled(entries) then
        Ok(Thresholds(Lookup(entries, "T90").value, Lookup(entries, "T95").value, Lookup(entries, "T99").value))
      else
        var vals := Ascending(Values(entries));
        if |vals| >= 3 then Ok(LowestThree(vals)) else Err(UnreadableThresholds)
    case Sequence(items) =>
      if |items| >= 3 then Ok(LowestThree(Ascending(items[..3]))) else Err(UnreadableThresholds)
    case Unsupported => Err(UnreadableThresholds)
  }

  /** A dict holding T90, T95 and T99 yields exactly those values, in that role, whatever their order. */
  lemma ThresholdsLabelled(entries: seq<(string, real)>, a: real, b: real, c: real)
    requires UniqueKeys(entries)
    requires ("T90", a) in entries && ("T95", b) in entries && ("T99", c) in entries
    ensures GetThresholds(Mapping(entries)) == Ok(Thresholds(a, b, c))
  {
    LookupFinds(entries, "T90", a);
    LookupFinds(entries, "T95", b);
    LookupFinds(entries, "T99", c);
  }

  /** The labelled branch does not sort: descending labelled values stay descending. */
  lemma LabelledNotReordered()
    ensures GetThresholds(Mapping([("T90", 0.9), ("T95", 0.5), ("T99", 0.1)])) == Ok(Thresholds(0.9, 0.5, 0.1))
  {
    ThresholdsLabelled([("T90", 0.9), ("T95", 0.5), ("T99", 0.1)], 0.9, 0.5, 0.1);
  }

  /** The first three of an ascending sequence are ascending, and nothing after them is below the third. */
  lemma LowestThreeSmallest(vals: seq<real>)
    requires |vals| >= 3 && forall i, j :: 0 <= i < j < |vals| ==> vals[i] <= vals[j]
    ensures LowestThree(vals).t90 <= LowestThree(vals).t95 <= LowestThree(vals).t99
    ensures multiset(vals) == multiset{vals[0], vals[1], vals[2]} + multiset(vals[3..])
    ensures forall v :: v in multiset(vals[3..]) ==> vals[2] <= v
  {
    assert vals == [vals[0], vals[1], vals[2]] + vals[3..];
    forall v | v in multiset(vals[3..]) ensures vals[2] <= v {
      var k :| 0 <= k < |vals[3..]| && vals[3..][k] == v;
      assert vals[3 + k] == v;
    }
  }

  /**
   * An unlabelled dict with at least three values yields its three smallest,
   * ascending: they are values of the dict, and every other value is at
   * least the third.
   */
  lemma ThresholdsSmallest(entries: seq<(string, real)>)
    requires !Labelled(entries) && |entries| >= 3
    ensures GetThresholds(Mapping(entries)).Ok?
    ensures var t := GetThresholds(Mapping(entries)).value;
            t.t90 <= t.t95 <= t.t99 &&
            multiset{t.t90, t.t95, t.t99} <= multiset(Values(entries)) &&
            forall v :: v in multiset(Values(entries)) - multiset{t.t90, t.t95, t.t99} ==> t.t99 <= v
  {
    var vals := Ascending(Values(entries));
    LowestThreeSmallest(vals);
  }

  /** A list of at least three yields its first three entries sorted, whatever follows them. */
  lemma ThresholdsFirstThree(items: seq<real>)
    requires |items| >= 3
    ensures GetThresholds(Sequence(items)).Ok?
    ensures var t := GetThresholds(Sequence(items)).value;
            t.t90 <= t.t95 <= t.t99 && multiset{t.t90, t.t95, t.t99} == multiset(items[..3])
  {
    var vals := Ascending(items[..3]);
    LowestThreeSmallest(vals);
    assert vals[3..] == [];
  }

  /** Exactly these shapes are refused: an unlabelled dict of fewer than three values, a short list, anything else. */
  lemma ThresholdsRefused(a: ThresholdArtifact)
    ensures GetThresholds(a).Err? <==>
              (a.Mapping? && !Labelled(a.entries) && |a.entries| < 3) ||
              (a.Sequence? && |a.items| < 3) ||
              a.Unsupported?
  {
  }

  // ---------------------------------------------------------------------
  // Tiers and labels
  // ---------------------------------------------------------------------

  /** The tier of probability `p`; each cut point belongs to the more severe side. */
  function AssignRiskTier(p: real, t90: real, t95: real, t99: real): (tier: string)
    ensures tier == "Tier 1" <==> t99 <= p
    ensures tier == "Tier 2" <==> t95 <= p < t99
    ensures tier == "Tier 3" <==> t90 <= p && p < t95 && p < t99
    ensures tier == "Tier 4" <==> p < t90 && p < t95 && p < t99
  {
    if p >= t99 then "Tier 1"
    else if p >= t95 then "Tier 2"
    else if p >= t90 then "Tier 3"
    else "Tier 4"
  }

  /** A tier's severity, 1 (most severe) to 4. */
  function Severity(tier: string): int
  {
    if tier == "Tier 1" then 1 else if tier == "Tier 2" then 2 else if tier == "Tier 3" then 3 else 4
  }

  /** A higher probability never gets a less severe tier; this needs no ordering of the cut points. */
  lemma TierMonotone(p: real, q: real, t90: real, t95: real, t99: real)
    requires p <= q
    ensures Severity(AssignRiskTier(q, t90, t95, t99)) <= Severity(AssignRiskTier(p, t90, t95, t99))
  {
  }

  /** With ascending cut points, each tier is the half-open band between two of them. */
  lemma TierBands(p: real, t90: real, t95: real, t99: real)
    requires t90 <= t95 <= t99
    ensures AssignRiskTier(p, t90, t95, t99) == "Tier 3" <==> t90 <= p < t95
    ensures AssignRiskTier(p, t90, t95, t99) == "Tier 4" <==> p < t90
  {
  }

  /** The risk-group label shown for a tier; any other string passes through. */
  function TierLabel(tier: string): (group: string)
    ensures tier == "Tier 1" ==> group == "즉시 이탈 위험"
    ensures tier == "Tier 2" ==> group == "고위험"
    ensures tier == "Tier 3" ==> group == "중위험"
    ensures tier == "Tier 4" ==> group == "안정"
    ensures tier !in {"Tier 1", "Tier 2", "Tier 3", "Tier 4"} ==> group == tier
  {
    match tier
    case "Tier 1" => "즉시 이탈 위험"
    case "Tier 2" => "고위험"
    case "Tier 3" => "중위험"
    case "Tier 4" => "안정"
    case _ => tier
  }

  /** The four labels are different, so an assigned tier can be read back from its label. */
  lemma LabelDeterminesTier(p: real, q: real, t90: real, t95: real, t99: real)
    requires TierLabel(AssignRiskTier(p, t90, t95, t99)) == TierLabel(AssignRiskTier(q, t90, t95, t99))
    ensures AssignRiskTier(p, t90, t95, t99) == AssignRiskTier(q, t90, t95, t99)
  {
    var a := AssignRiskTier(p, t90, t95, t99);
    var b := AssignRiskTier(q, t90, t95, t99);
    assert "즉시 이탈 위험"[0] != "고위험"[0] && "즉시 이탈 위험"[0] != "중위험"[0] && "즉시 이탈 위험"[0] != "안정"[0];
    assert "고위험"[0] != "중위험"[0] && "고위험"[0] != "안정"[0] && "중위험"[0] != "안정"[0];
  }

  // ---------------------------------------------------------------------
  // Rounding to six decimals
  // ---------------------------------------------------------------------

  /** The nearest integer, ties to the even one (numpy's rounding). */
  function RoundHalfEven(y: real): (n: int)
    ensures y - 0.5 <= n as real <= y + 0.5
  {
    var f := y.Floor;
    var d := y - f as real;
    if d < 0.5 then f
    else if d > 0.5 then f + 1
    else if f % 2 == 0 then f
    else f + 1
  }

  lemma RoundHalfEvenMonotone(x: real, y: real)
    requires x <= y
    ensures RoundHalfEven(x) <= RoundHalfEven(y)
  {
    var fx, fy := x.Floor, y.Floor;
    assert fx <= fy;
    if fx < fy {
      assert RoundHalfEven(x) <= fx + 1 <= fy <= RoundHalfEven(y);
    }
  }

  lemma RoundHalfEvenInteger(n: int)
    ensures RoundHalfEven(n as real) == n
  {
    assert (n as real).Floor == n;
  }

  /** `np.round(x, 6)` on exact reals: within half a millionth of `x`. */
  function Round6(x: real): (r: real)
    ensures x - 0.0000005 <= r <= x + 0.0000005
  {
    RoundHalfEven(x * 1000000.0) as real / 1000000.0
  }

  /** Rounding keeps the order of probabilities (ties may appear). */
  lemma Round6Monotone(x: real, y: real)
    requires x <= y
    ensures Round6(x) <= Round6(y)
  {
    RoundHalfEvenMonotone(x * 1000000.0, y * 1000000.0);
  }

  /** Rounding twice is rounding once. */
  lemma Round6Idempotent(x: real)
    ensures Round6(Round6(x)) == Round6(x)
  {
    var n := RoundHalfEven(x * 1000000.0);
    assert Round6(x) * 1000000.0 == n as real;
    RoundHalfEvenInteger(n);
  }

  /** A probability stays a probability after rounding. */
  lemma Round6UnitInterval(x: real)
    requires 0.0 <= x <= 1.0
    ensures 0.0 <= Round6(x) <= 1.0
  {
    Round6Monotone(0.0, x);
    Round6Monotone(x, 1.0);
    RoundHalfEvenInteger(0);
    RoundHalfEvenInteger(1000000);
  }

  /** Tiering the rounded probability agrees with tiering the exact one away from the cut points. */
  lemma RoundedTierAwayFromCuts(p: real, t90: real, t95: real, t99: real)
    requires p < t90 - 0.0000005 || t90 + 0.0000005 < p
    requires p < t95 - 0.0000005 || t95 + 0.0000005 < p
    requires p < t99 - 0.0000005 || t99 + 0.0000005 < p
    ensures AssignRiskTier(Round6(p), t90, t95, t99) == AssignRiskTier(p, t90, t95, t99)
  {
    var q := Round6(p);
    assert p - 0.0000005 <= q <= p + 0.0000005;
  }

  /** Near a cut point the rounded probability can land in the more severe tier. */
  lemma RoundedTierDiffers()
    ensures Round6(0.9499996) == 0.95
    ensures AssignRiskTier(0.9499996, 0.5, 0.8, 0.95) == "Tier 2"
    ensures AssignRiskTier(Round6(0.9499996), 0.5, 0.8, 0.95) == "Tier 1"
  {
    assert (0.9499996 * 1000000.0).Floor == 949999;
  }

  // ---------------------------------------------------------------------
  // The scored result table
  // ---------------------------------------------------------------------

  /** One row of the result: the id as text, the rounded probability, its tier and the tier's label. */
  datatype ScoredRow = ScoredRow(id: string, churnProba: real, riskTier: string, riskGroup: string)

  function NegatedProba(row: ScoredRow): real { -row.churnProba }

  /** Ordered by probability, highest first. */
  ghost predicate ByProbabilityDescending(rows: seq<ScoredRow>)
  {
    forall i, j :: 0 <= i < j < |rows| ==> rows[j].churnProba <= rows[i].churnProba
  }

  /**
   * `r` is the outcome `s` after sorting: the same error, or the same rows
   * (as a multiset) ordered by probability, highest first.
   */
  ghost predicate SortedOutcome(r: Result<seq<ScoredRow>>, s: Result<seq<ScoredRow>>)
  {
    && (r.Err? <==> s.Err?)
    && (r.Err? ==> r.msg == s.msg)
    && (r.Ok? ==> multiset(r.value) == multiset(s.value) && ByProbabilityDescending(r.value))
  }

  /** The table before sorting: row `i` from id cell `i` and probability `i`. */
  function ScoredRows(ids: seq<Cell>, p: seq<real>, th: Thresholds): (rows: seq<ScoredRow>)
    requires |ids| == |p|
    ensures |rows| == |p|
  {
    seq(|p|, i requires 0 <= i < |p| =>
      var q := Round6(p[i]);
      var tier := AssignRiskTier(q, th.t90, th.t95, th.t99);
      ScoredRow(CellText(ids[i]), q, tier, TierLabel(tier)))
  }

  const EmptyUpload := "the uploaded data is empty"
  const LengthMismatch := "the probability array does not have one entry per row"

  function MissingIdColumn(idCol: string): string
  {
    "ID column '" + idCol + "' is not in the uploaded file"
  }

  /** The outcome of scoring an upload, before the final sort. */
  function Scores(df: Frame, idCol: string, model: Classifier, artifact: ThresholdArtifact): (r: Result<seq<ScoredRow>>)
    requires df.Valid() && df.Distinct()
    ensures r.Ok? ==> df.rows > 0 && idCol in df.data && |r.value| == df.rows
    ensures r.Ok? ==> model.featureNamesIn.Some? && model.predictProba.Some? && GetThresholds(artifact).Ok?
  {
    if df.rows == 0 then Err(EmptyUpload)
    else if idCol !in df.data then Err(MissingIdColumn(idCol))
    else
      match ModelFeatures(model)
      case Err(m) => Err(m)
      case Ok(features) =>
        match GetThresholds(artifact)
        case Err(m) => Err(m)
        case Ok(th) => ScoreMatrix(AiLib.PreprocessResult(df, features, idCol), df.data[idCol], model, th)
  }

  /** Scoring the preprocessed matrix `x` of an upload whose ID column is `ids`. */
  function ScoreMatrix(x: Result<Frame>, ids: seq<Cell>, model: Classifier, th: Thresholds): (r: Result<seq<ScoredRow>>)
    ensures r.Ok? ==> x.Ok? && model.predictProba.Some? && |r.value| == |ids|
  {
    match x
    case Err(m) => Err(m)
    case Ok(matrix) =>
      match AsProb(model, matrix)
      case Err(m) => Err(m)
      case Ok(p) => if |p| != |ids| then Err(LengthMismatch) else Ok(ScoredRows(ids, p, th))
  }

  /**
   * The uploaded table scored end to end: the same rows as Scores, ordered
   * by probability, highest first, in no promised order among ties.
   */
  method PredictAndBuild(df: Frame, idCol: string, model: Classifier, artifact: ThresholdArtifact)
    returns (r: Result<seq<ScoredRow>>)
    requires df.Valid() && df.Distinct()
    ensures SortedOutcome(r, Scores(df, idCol, model, artifact))
  {
    if df.rows == 0 {
      return Err(EmptyUpload);
    }
    if idCol !in df.data {
      return Err(MissingIdColumn(idCol));
    }
    var features := ModelFeatures(model);
    if features.Err? {
      return Err(features.msg);
    }
    var th := GetThresholds(artifact);
    if th.Err? {
      return Err(th.msg);
    }
    var x := AiLib.Preprocess(df, features.value, idCol);
    r := BuildTable(x, df.data[idCol], model, th.value);
  }

  /** The tail of predict_and_build: probabilities, the two columns the table starts with, the two assigned to it, and the sort. */
  method BuildTable(x: Result<Frame>, idColumn: seq<Cell>, model: Classifier, t: Thresholds)
    returns (r: Result<seq<ScoredRow>>)
    ensures SortedOutcome(r, ScoreMatrix(x, idColumn, model, t))
  {
    if x.Err? {
      return Err(x.msg);
    }
    var p := AsProb(model, x.value);
    if p.Err? {
      return Err(p.msg);
    }
    var n := |p.value|;
    if n != |idColumn| {
      return Err(LengthMismatch);
    }
    // The two columns the table is built with, then the two assigned to it.
    var ids := seq(n, i requires 0 <= i < n => CellText(idColumn[i]));
    var probas := seq(n, i requires 0 <= i < n => Round6(p.value[i]));
    var tiers := seq(n, i requires 0 <= i < n => AssignRiskTier(probas[i], t.t90, t.t95, t.t99));
    var groups := seq(n, i requires 0 <= i < n => TierLabel(tiers[i]));
    var out := seq(n, i requires 0 <= i < n => ScoredRow(ids[i], probas[i], tiers[i], groups[i]));
    assert out == ScoredRows(idColumn, p.value, t);
    Sorting.SortBySorted(out, NegatedProba);
    var sorted := Sorting.SortBy(out, NegatedProba);
    assert ByProbabilityDescending(sorted) by {
      forall i, j | 0 <= i < j < |sorted| ensures sorted[j].churnProba <= sorted[i].churnProba {
        assert NegatedProba(sorted[i]) <= NegatedProba(sorted[j]);
      }
    }
    r := Ok(sorted);
  }

  /** An empty upload and a missing id column are refused before anything is loaded. */
  lemma ScoresRejects(df: Frame, idCol: string, model: Classifier, artifact: ThresholdArtifact)
    requires df.Valid() && df.Distinct()
    ensures df.rows == 0 ==> Scores(df, idCol, model, artifact) == Err(EmptyUpload)
    ensures df.rows > 0 && idCol !in df.data ==> Scores(df, idCol, model, artifact) == Err(MissingIdColumn(idCol))
  {
  }

  /**
   * When every stage succeeds and the model gives one probability per row,
   * the result is one row per uploaded row, in upload order before sorting.
   */
  lemma ScoresRows(df: Frame, idCol: string, model: Classifier, artifact: ThresholdArtifact,
                   th: Thresholds, x: Frame, p: seq<real>)
    requires df.Valid() && df.Distinct() && df.rows > 0 && idCol in df.data && model.featureNamesIn.Some?
    requires GetThresholds(artifact) == Ok(th)
    requires AiLib.PreprocessResult(df, model.featureNamesIn.value, idCol) == Ok(x)
    requires AsProb(model, x) == Ok(p) && |p| == df.rows
    ensures Scores(df, idCol, model, artifact) == Ok(ScoredRows(df.data[idCol], p, th))
    ensures |Scores(df, idCol, model, artifact).value| == df.rows
  {
  }

  /** A model whose probability array is not one entry per row is refused. */
  lemma ScoresLengthMismatch(df: Frame, idCol: string, model: Classifier, artifact: ThresholdArtifact,
                             th: Thresholds, x: Frame, p: seq<real>)
    requires df.Valid() && df.Distinct() && df.rows > 0 && idCol in df.data && model.featureNamesIn.Some?
    requires GetThresholds(artifact) == Ok(th)
    requires AiLib.PreprocessResult(df, model.featureNamesIn.value, idCol) == Ok(x)
    requires AsProb(model, x) == Ok(p) && |p| != df.rows
    ensures Scores(df, idCol, model, artifact) == Err(LengthMismatch)
  {
  }

  /**
   * Row `i` before sorting: the ID as text, the probability rounded to six
   * decimals, and the tier of the ROUNDED probability.
   */
  lemma ScoredRowAt(ids: seq<Cell>, p: seq<real>, th: Thresholds, i: nat)
    requires |ids| == |p| && i < |p|
    ensures ScoredRows(ids, p, th)[i].id == CellText(ids[i])
    ensures ScoredRows(ids, p, th)[i].churnProba == Round6(p[i])
    ensures ScoredRows(ids, p, th)[i].riskTier == AssignRiskTier(Round6(p[i]), th.t90, th.t95, th.t99)
  {
  }

  /** Every scored row carries the label of its own tier, and that tier is one of the four. */
  lemma ScoredRowsLabelled(ids: seq<Cell>, p: seq<real>, th: Thresholds, row: ScoredRow)
    requires |ids| == |p| && row in ScoredRows(ids, p, th)
    ensures row.riskGroup == TierLabel(row.riskTier)
    ensures row.riskTier in {"Tier 1", "Tier 2", "Tier 3", "Tier 4"}
    ensures row.riskTier == AssignRiskTier(row.churnProba, th.t90, th.t95, th.t99)
  {
    var i :| 0 <= i < |p| && ScoredRows(ids, p, th)[i] == row;
  }
}
