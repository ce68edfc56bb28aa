/** What preprocess_data guarantees, stated over the stage functions of AiLib. */
module PreprocessProperties {
  import opened Results
  import opened Text
  import opened Frames
  import opened AiLib

  // ---------------------------------------------------------------
  // Reconciliation and coercion
  // ---------------------------------------------------------------

  /** No column is both a required numeric and a categorical column. */
  lemma NumericNotCategorical()
    ensures forall c :: c in NeededNumeric ==> c !in CoreCategoricalFeatures
  {
    assert forall k :: 0 <= k < |NeededNumeric| ==> NeededNumeric[k] !in CoreCategoricalFeatures;
  }

  /** What _ensure_columns leaves in one required column. */
  lemma ReconciledColumn(df: Frame, c: string)
    requires df.Valid() && df.Distinct() && (c in NeededNumeric || c in CoreCategoricalFeatures)
    ensures c in Reconciled(df).data
    ensures c in df.data ==> Reconciled(df).data[c] == df.data[c]
    ensures c !in df.data && c in NeededNumeric ==> Reconciled(df).data[c] == Constant(df.rows, Num(DefaultNumeric))
    ensures c !in df.data && c !in NeededNumeric ==> Reconciled(df).data[c] == Constant(df.rows, Str(DefaultCategory))
  {
    EnsuredColumns(df, NeededNumeric, CoreCategoricalFeatures, DefaultNumeric, DefaultCategory);
  }

  /** After coercion a required numeric column holds numbers; a missing or unparseable cell is 0.0. */
  lemma CoercedNumeric(df: Frame, c: string, i: nat)
    requires df.Valid() && df.Distinct() && c in NeededNumeric && i < df.rows
    ensures IsNumber(Coerced(df).data[c][i])
    ensures c in df.data ==> Coerced(df).data[c][i] == ToNumber(df.data[c][i])
    ensures c !in df.data ==> Coerced(df).data[c][i] == Num(DefaultNumeric)
    ensures c in df.data && df.data[c][i].Missing? ==> Coerced(df).data[c][i] == Num(0.0)
    ensures c in df.data && df.data[c][i].Str? && ParseDecimal(df.data[c][i].s).None? ==>
      Coerced(df).data[c][i] == Num(0.0)
    ensures c in df.data && df.data[c][i].Str? && ParseDecimal(df.data[c][i].s).Some? ==>
      Coerced(df).data[c][i] == Num(ParseDecimal(df.data[c][i].s).value)
  {
    ReconciledColumn(df, c);
    NumericNotCategorical();
    assert Coerced(df).data[c][i] == ToNumber(Reconciled(df).data[c][i]);
  }

  /** After coercion a categorical column holds strings: the text of the uploaded cell, or "UNKNOWN" for an added column. */
  lemma CoercedCategorical(df: Frame, c: string, i: nat)
    requires df.Valid() && df.Distinct() && c in CoreCategoricalFeatures && i < df.rows
    ensures Coerced(df).data[c][i].Str?
    ensures c in df.data ==> Coerced(df).data[c][i] == Str(CellText(df.data[c][i]))
    ensures c !in df.data ==> Coerced(df).data[c][i] == Str(DefaultCategory)
  {
    NumericNotCategorical();
    CoercedText(df, c, i);
    ReconciledColumn(df, c);
    TextCell(Reconciled(df).data[c][i]);
  }

  /** A missing categorical cell becomes the text "nan", not "UNKNOWN". */
  lemma CoercedMissingIsNan(df: Frame, c: string, i: nat)
    requires df.Valid() && df.Distinct() && c in CoreCategoricalFeatures && c in df.data && i < df.rows
    requires df.data[c][i].Missing?
    ensures Coerced(df).data[c][i] == Str("nan")
  {
    CoercedText(df, c, i);
    ReconciledColumn(df, c);
    TextCell(df.data[c][i]);
  }

  /** A categorical cell after coercion is the text of the reconciled cell. */
  lemma CoercedText(df: Frame, c: string, i: nat)
    requires df.Valid() && df.Distinct() && c in CoreCategoricalFeatures && i < df.rows
    ensures c in Reconciled(df).data && Coerced(df).data[c][i] == ToText(Reconciled(df).data[c][i])
  {
    NumericNotCategorical();
    ReconciledColumn(df, c);
  }

  /** What the text converter makes of one cell. */
  lemma TextCell(x: Cell)
    ensures ToText(x).Str? && ToText(x) == Str(CellText(x))
    ensures x.Missing? ==> ToText(x) == Str("nan")
    ensures x.Str? ==> ToText(x) == x
  {
  }

  // ---------------------------------------------------------------
  // Derived spend features
  // ---------------------------------------------------------------

  /** For a non-negative past spend the ratio's denominator is at least 1, so the ratio is a number. */
  lemma RatioDefined(recent: real, past: real)
    requires past >= 0.0
    ensures past + 1.0 >= 1.0 && RatioCell(recent, past) == Num(recent / (past + 1.0))
  {
  }

  /** Row i of the derived columns, for any table holding the six spend columns. */
  lemma DerivedRow(g: Frame, i: nat)
    requires g.Valid() && HasSpendColumns(g) && i < g.rows
    ensures var t := Derived(g);
      && t.data["recent_3m_spent"][i] == Num(Recent(g, i))
      && t.data["past_3m_spent"][i] == Num(Past(g, i))
      && t.data["spent_change_ratio"][i] == RatioCell(Recent(g, i), Past(g, i))
  {
    var t := Derived(g);
    assert t.data["recent_3m_spent"] == RecentColumn(g);
    assert t.data["past_3m_spent"] == PastColumn(g);
    assert t.data["spent_change_ratio"] == RatioColumn(g);
  }

  /**
   * On every row of the prepared table recent_3m_spent and past_3m_spent are the two spend
   * sums of the coerced table, and spent_change_ratio is recent / (past + 1.0).
   */
  lemma PreparedSpend(df: Frame, i: nat)
    requires df.Valid() && df.Distinct() && i < df.rows
    ensures var t, g := Prepared(df), Coerced(df);
      && t.data["recent_3m_spent"][i] == Num(Recent(g, i))
      && t.data["past_3m_spent"][i] == Num(Past(g, i))
      && t.data["spent_change_ratio"][i] == RatioCell(Recent(g, i), Past(g, i))
  {
    var g := Coerced(df);
    assert Prepared(df) == Derived(g);
    DerivedRow(g, i);
  }

  /** The two sums the derived columns hold: months 1-3 and months 4-6. */
  lemma SpendSums(g: Frame, i: nat)
    requires g.Valid() && HasSpendColumns(g) && i < g.rows
    ensures Recent(g, i) == Spend(g, "spent_m1", i) + Spend(g, "spent_m2", i) + Spend(g, "spent_m3", i)
    ensures Past(g, i) == Spend(g, "spent_m4", i) + Spend(g, "spent_m5", i) + Spend(g, "spent_m6", i)
  {
  }

  // ---------------------------------------------------------------
  // One-hot encoding
  // ---------------------------------------------------------------

  /** Column `c_v` exists for every observed value v of c and is 1 exactly where c's text is v. */
  lemma OneHotIndicator(f: Frame, cats: seq<string>, c: string, v: string, i: nat)
    requires f.Valid() && (forall d :: d in cats ==> d in f.data) && Encoded(f, cats).Ok?
    requires c in cats && v in Texts(f.data[c]) && i < f.rows
    ensures var e := Encoded(f, cats).value;
      DummyName(c, v) in e.data && e.data[DummyName(c, v)][i] == Int(if CellText(f.data[c][i]) == v then 1 else 0)
  {
    var base := Remaining(f.columns, cats);
    var ps := DummyPairs(f, cats);
    var names := PairNames(ps);
    assert (c, v) in ps;
    var j :| 0 <= j < |ps| && ps[j] == (c, v);
    var n := DummyName(c, v);
    assert names[j] == n;
    DistinctConcat(base, names);
    IndexOfDistinct(names, j);
  }

  /** Each row has exactly one 1 among the indicator columns of an encoded column. */
  lemma OneHotExactlyOne(f: Frame, cats: seq<string>, c: string, i: nat)
    requires f.Valid() && (forall d :: d in cats ==> d in f.data) && Encoded(f, cats).Ok?
    requires c in cats && i < f.rows
    ensures var e := Encoded(f, cats).value;
      var v := CellText(f.data[c][i]);
      && DummyName(c, v) in e.data && e.data[DummyName(c, v)][i] == Int(1)
      && forall w :: w in Texts(f.data[c]) && w != v ==> DummyName(c, w) in e.data && e.data[DummyName(c, w)][i] == Int(0)
  {
    var v := CellText(f.data[c][i]);
    assert Texts(f.data[c])[i] == v;
    OneHotIndicator(f, cats, c, v, i);
    forall w | w in Texts(f.data[c]) && w != v
      ensures DummyName(c, w) in Encoded(f, cats).value.data
      ensures Encoded(f, cats).value.data[DummyName(c, w)][i] == Int(0)
    {
      OneHotIndicator(f, cats, c, w, i);
    }
  }

  /** Every column get_dummies produces is either a kept column, unchanged, or a 0/1 indicator. */
  lemma EncodedColumn(f: Frame, cats: seq<string>, n: string)
    requires f.Valid() && (forall d :: d in cats ==> d in f.data) && Encoded(f, cats).Ok?
    requires n in Encoded(f, cats).value.data
    ensures n in Remaining(f.columns, cats) ==> n in f.data && Encoded(f, cats).value.data[n] == f.data[n]
    ensures n !in Remaining(f.columns, cats) ==>
      forall k :: 0 <= k < f.rows ==> Encoded(f, cats).value.data[n][k] in {Int(0), Int(1)}
  {
    var base := Remaining(f.columns, cats);
    var ps := DummyPairs(f, cats);
    var names := PairNames(ps);
    DistinctConcat(base, names);
    var e := Encoded(f, cats).value;
    assert n in base + names;
    if n !in base {
      var p := ps[IndexOf(names, n)];
      assert e.data[n] == Indicator(f.data[p.0], p.1);
    }
  }

  // ---------------------------------------------------------------
  // The final dtype loop has nothing to convert
  // ---------------------------------------------------------------

  /** The model's numeric inputs are required numeric columns, except the derived ratio. */
  lemma HighImportanceCovered()
    ensures forall c :: c in HighImportanceFeatures ==>
      c == "spent_change_ratio" || (c in NeededNumeric && c != "recent_3m_spent" && c != "past_3m_spent")
  {
    assert forall k :: 0 <= k < |HighImportanceFeatures| ==>
      HighImportanceFeatures[k] == "spent_change_ratio" || HighImportanceFeatures[k] in NeededNumeric;
  }

  /** A required numeric column holds no text after coercion. */
  lemma CoercedNoText(df: Frame, n: string)
    requires df.Valid() && df.Distinct() && n in NeededNumeric
    ensures n in Coerced(df).data && !HasText(Coerced(df).data[n])
  {
    ReconciledColumn(df, n);
    forall i | 0 <= i < df.rows ensures !Coerced(df).data[n][i].Str? {
      CoercedNumeric(df, n, i);
    }
  }

  /** The derived ratio column holds numbers or NaN, never text. */
  lemma RatioNoText(g: Frame)
    requires g.Valid() && HasSpendColumns(g)
    ensures !HasText(RatioColumn(g))
  {
  }

  /** Deriving the spend features leaves every other column as it was. */
  lemma DerivedKeeps(g: Frame, n: string)
    requires g.Valid() && HasSpendColumns(g) && n in g.data
    requires n != "recent_3m_spent" && n != "past_3m_spent" && n != "spent_change_ratio"
    ensures n in Derived(g).data && Derived(g).data[n] == g.data[n]
  {
  }

  /** A high-importance column of the prepared table holds no text. */
  lemma PreparedNoText(df: Frame, n: string)
    requires df.Valid() && df.Distinct() && n in HighImportanceFeatures
    ensures n in Prepared(df).data && !HasText(Prepared(df).data[n])
  {
    var g := Coerced(df);
    assert Prepared(df) == Derived(g);
    HighImportanceCovered();
    if n == "spent_change_ratio" {
      assert Derived(g).data[n] == RatioColumn(g);
      RatioNoText(g);
    } else {
      CoercedNoText(df, n);
      DerivedKeeps(g, n);
    }
  }

  /** A column get_dummies keeps, other than the ID, is one of the high-importance features. */
  lemma KeptIsFeature(df: Frame, idCol: string, n: string)
    requires df.Valid() && df.Distinct()
    requires n in Remaining(Filtered(df, idCol).columns, CoreCategoricalFeatures) && n != idCol
    ensures n in HighImportanceFeatures
  {
    assert n in FeaturesToUse(idCol) && n !in CoreCategoricalFeatures;
  }

  /** After get_dummies only the ID column can hold text. */
  lemma EncodedNoText(df: Frame, idCol: string, f: Frame, e: Frame, n: string)
    requires df.Valid() && df.Distinct() && f == Filtered(df, idCol)
    requires Encoded(f, CoreCategoricalFeatures) == Ok(e)
    requires n in e.data && n != idCol
    ensures !HasText(e.data[n])
  {
    EncodedColumn(f, CoreCategoricalFeatures, n);
    if n in Remaining(f.columns, CoreCategoricalFeatures) {
      KeptIsFeature(df, idCol, n);
      PreparedNoText(df, n);
    } else {
      IndicatorsNoText(e.data[n]);
    }
  }

  /** A column of 0/1 indicators holds no text. */
  lemma IndicatorsNoText(col: seq<Cell>)
    requires forall k :: 0 <= k < |col| ==> col[k] in {Int(0), Int(1)}
    ensures !HasText(col)
  {
    forall k | 0 <= k < |col| ensures !col[k].Str? {
      assert col[k] == Int(0) || col[k] == Int(1);
    }
  }

  // ---------------------------------------------------------------
  // The feature matrix
  // ---------------------------------------------------------------

  /** Reindexing, dropping the ID and the final loop, for an encoded table with no text outside the ID. */
  lemma AlignedColumns(e: Frame, features: seq<string>, idCol: string)
    requires e.Valid() && forall n :: n in e.data && n != idCol ==> !HasText(e.data[n])
    ensures var x := Aligned(e, features, idCol);
      && x.columns == WithoutLabel(features, idCol) && x.rows == e.rows
      && (forall n :: n in x.data <==> n in features && n != idCol)
      && (forall n :: n in x.data ==> x.data[n] == if n in e.data then e.data[n] else Constant(e.rows, Int(0)))
  {
    var d := DropLabel(Reindexed(e, features), idCol);
    ObjectsCoercedColumns(d, d.columns);
  }

  /**
   * The matrix preprocess_data returns: exactly the model's features in order, without the ID;
   * one row per input row; each feature the encoded column `e` of that name, or all zeros when
   * the encoding did not produce it.
   */
  lemma PreprocessShape(df: Frame, features: seq<string>, idCol: string, e: Frame)
    requires df.Valid() && df.Distinct() && PreprocessResult(df, features, idCol).Ok?
    requires Encoded(Filtered(df, idCol), CoreCategoricalFeatures) == Ok(e)
    ensures var x := PreprocessResult(df, features, idCol).value;
      && x.columns == WithoutLabel(features, idCol) && x.rows == df.rows && idCol !in x.data
      && (forall n :: n in x.data <==> n in features && n != idCol)
      && (forall n :: n in x.data && n !in e.data ==> x.data[n] == Constant(df.rows, Int(0)))
      && (forall n :: n in x.data && n in e.data ==> x.data[n] == e.data[n])
  {
    PreprocessValue(df, features, idCol);
    forall n | n in e.data && n != idCol ensures !HasText(e.data[n]) {
      EncodedNoText(df, idCol, Filtered(df, idCol), e, n);
    }
    AlignedColumns(e, features, idCol);
  }

  lemma PreprocessValue(df: Frame, features: seq<string>, idCol: string)
    requires df.Valid() && df.Distinct()
    ensures PreprocessResult(df, features, idCol).Ok? ==>
      && Encoded(Filtered(df, idCol), CoreCategoricalFeatures).Ok?
      && PreprocessResult(df, features, idCol).value ==
           Aligned(Encoded(Filtered(df, idCol), CoreCategoricalFeatures).value, features, idCol)
  {
    if df.rows != 0 && idCol in df.data && idCol !in HighImportanceFeatures && idCol !in CoreCategoricalFeatures {
      var r := Encoded(Filtered(df, idCol), CoreCategoricalFeatures);
      if r.Ok? && DistinctNames(WithoutLabel(features, idCol)) {
        assert PreprocessResult(df, features, idCol) == Ok(Aligned(r.value, features, idCol));
      }
    }
  }

  // ---------------------------------------------------------------
  // When preprocess_data succeeds
  // ---------------------------------------------------------------

  /** preprocess_data rejects an empty upload, an upload without the ID column, and a repeated feature. */
  lemma PreprocessRejects(df: Frame, features: seq<string>, idCol: string)
    requires df.Valid() && df.Distinct()
    ensures df.rows == 0 ==> PreprocessResult(df, features, idCol) == Err("input data is empty")
    ensures df.rows > 0 && idCol !in df.data ==> PreprocessResult(df, features, idCol).Err?
    ensures !DistinctNames(WithoutLabel(features, idCol)) ==> PreprocessResult(df, features, idCol).Err?
  {
  }

  /** `name` does not start with "{c}_" for any categorical column c. */
  predicate NoDummyPrefix(name: string)
  {
    forall k :: 0 <= k < |CoreCategoricalFeatures| ==> !(CoreCategoricalFeatures[k] + "_" <= name)
  }

  lemma NotPrefixAt(p: string, s: string, i: nat)
    requires i < |p| && i < |s| && p[i] != s[i]
    ensures !(p <= s)
  {
  }

  /** No high-importance column name could be an indicator column name. */
  lemma HighHasNoDummyPrefix()
    ensures forall h :: h in HighImportanceFeatures ==> NoDummyPrefix(h)
  {
    forall j, k | 0 <= j < |HighImportanceFeatures| && 0 <= k < |CoreCategoricalFeatures|
      ensures !(CoreCategoricalFeatures[k] + "_" <= HighImportanceFeatures[j])
    {
      var p, h := CoreCategoricalFeatures[k] + "_", HighImportanceFeatures[j];
      assert p[0] == CoreCategoricalFeatures[k][0] && p[1] == CoreCategoricalFeatures[k][1];
      if h[0] != p[0] {
        NotPrefixAt(p, h, 0);
      } else {
        NotPrefixAt(p, h, 1);
      }
    }
  }

  /** The model's feature columns: no repeats, and none of them categorical. */
  lemma FeatureListsDistinct()
    ensures DistinctNames(HighImportanceFeatures) && DistinctNames(CoreCategoricalFeatures)
    ensures forall h :: h in HighImportanceFeatures ==> h !in CoreCategoricalFeatures
  {
    assert forall k :: 0 <= k < |HighImportanceFeatures| ==> HighImportanceFeatures[k] !in CoreCategoricalFeatures;
  }

  /** The categorical columns start with four different letters, so "{c}_{v}" determines c and v. */
  lemma DummyNameInjective(c1: string, v1: string, c2: string, v2: string)
    requires c1 in CoreCategoricalFeatures && c2 in CoreCategoricalFeatures
    requires DummyName(c1, v1) == DummyName(c2, v2)
    ensures c1 == c2 && v1 == v2
  {
    assert forall k, j :: 0 <= k < |CoreCategoricalFeatures| && 0 <= j < |CoreCategoricalFeatures| ==>
      (CoreCategoricalFeatures[k][0] == CoreCategoricalFeatures[j][0] ==> k == j);
    assert DummyName(c1, v1)[0] == c1[0] && DummyName(c2, v2)[0] == c2[0];
    assert c1 == c2;
    assert v1 == DummyName(c1, v1)[|c1| + 1..];
    assert v2 == DummyName(c2, v2)[|c2| + 1..];
  }

  lemma DummyPrefix(c: string, v: string)
    ensures c + "_" <= DummyName(c, v)
  {
    assert DummyName(c, v)[..|c| + 1] == c + "_";
  }

  ghost predicate DistinctPairs(ps: seq<(string, string)>)
  {
    forall i, j :: 0 <= i < j < |ps| ==> ps[i] != ps[j]
  }

  /** get_dummies makes one indicator per (column, observed value) pair, none twice. */
  lemma {:induction false} DummyPairsDistinct(f: Frame, cats: seq<string>)
    requires f.Valid() && (forall c :: c in cats ==> c in f.data) && DistinctNames(cats)
    ensures DistinctPairs(DummyPairs(f, cats))
  {
    if cats != [] {
      var init := cats[..|cats| - 1];
      var c := cats[|cats| - 1];
      var vs := Uniques(Texts(f.data[c]));
      var ps := DummyPairs(f, init);
      var block := seq(|vs|, k requires 0 <= k < |vs| => (c, vs[k]));
      assert DistinctNames(init);
      DummyPairsDistinct(f, init);
      assert DummyPairs(f, cats) == ps + block;
      var s := ps + block;
      forall i, j | 0 <= i < j < |s| ensures s[i] != s[j] {
        if j < |ps| {
        } else if i >= |ps| {
          assert s[i] == block[i - |ps|] && s[j] == block[j - |ps|];
        } else {
          assert s[i] in ps && s[i].0 in init;
          assert s[j] == block[j - |ps|] && s[j].0 == c;
        }
      }
    }
  }

  lemma PairNamesDistinct(ps: seq<(string, string)>)
    requires DistinctPairs(ps) && forall p :: p in ps ==> p.0 in CoreCategoricalFeatures
    ensures DistinctNames(PairNames(ps))
  {
    var names := PairNames(ps);
    forall i, j | 0 <= i < j < |names| ensures names[i] != names[j] {
      if names[i] == names[j] {
        DummyNameInjective(ps[i].0, ps[i].1, ps[j].0, ps[j].1);
      }
    }
  }

  /** get_dummies yields distinct labels when no kept column name looks like an indicator name. */
  lemma EncodingSucceeds(f: Frame)
    requires f.Valid() && (forall c :: c in CoreCategoricalFeatures ==> c in f.data) && DistinctNames(f.columns)
    requires forall x :: x in f.columns && x !in CoreCategoricalFeatures ==> NoDummyPrefix(x)
    ensures Encoded(f, CoreCategoricalFeatures).Ok?
  {
    var cats := CoreCategoricalFeatures;
    var base := Remaining(f.columns, cats);
    var ps := DummyPairs(f, cats);
    var names := PairNames(ps);
    FeatureListsDistinct();
    DummyPairsDistinct(f, cats);
    PairNamesDistinct(ps);
    forall k | 0 <= k < |names| ensures names[k] !in base {
      DummyPrefix(ps[k].0, ps[k].1);
      var j :| 0 <= j < |cats| && cats[j] == ps[k].0;
      assert cats[j] + "_" <= names[k];
    }
    DistinctConcatIntro(base, names);
  }

  /** The filtered table keeps distinct labels, all of them from [id_col] + HIGH + CAT. */
  lemma FilteredColumns(df: Frame, idCol: string)
    requires df.Valid() && df.Distinct() && idCol !in HighImportanceFeatures && idCol !in CoreCategoricalFeatures
    ensures DistinctNames(Filtered(df, idCol).columns)
    ensures forall x :: x in Filtered(df, idCol).columns ==> x == idCol || x in HighImportanceFeatures || x in CoreCategoricalFeatures
  {
    FeatureListsDistinct();
    DistinctConcatIntro(HighImportanceFeatures, CoreCategoricalFeatures);
    DistinctConcatIntro([idCol], HighImportanceFeatures + CoreCategoricalFeatures);
    assert FeaturesToUse(idCol) == [idCol] + (HighImportanceFeatures + CoreCategoricalFeatures);
  }

  /**
   * preprocess_data succeeds on every non-empty upload that has the ID column, as long as the
   * ID label is neither a feature column nor of the form "{categorical}_{value}", and the model's
   * features other than the ID are listed once each.
   */
  lemma PreprocessAccepts(df: Frame, features: seq<string>, idCol: string)
    requires df.Valid() && df.Distinct() && df.rows > 0 && idCol in df.data
    requires idCol !in HighImportanceFeatures && idCol !in CoreCategoricalFeatures && NoDummyPrefix(idCol)
    requires DistinctNames(WithoutLabel(features, idCol))
    ensures PreprocessResult(df, features, idCol).Ok?
  {
    var f := Filtered(df, idCol);
    FilteredColumns(df, idCol);
    HighHasNoDummyPrefix();
    EncodingSucceeds(f);
  }
}
