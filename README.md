# Churn scoring: a Dafny model of the data path

This project models the scoring path of a customer-churn web application. An uploaded customer table (a pandas DataFrame) goes through four steps:

1. It is reconciled: missing numeric columns are added as 0.0 and missing categorical columns as "UNKNOWN".
2. It is coerced: numbers are parsed, and categoricals are rendered as text.
3. Derived spend features are added, the table is filtered to the model's columns, one-hot encoded and reindexed to the classifier's feature list.
4. The resulting matrix is scored. Each row gets its probability rounded to six digits, a risk tier from three thresholds and a Korean risk label, and the table is sorted by probability, highest first.

The model also covers the pure helpers of the retention-marketing page:
- column-label cleaning;
- the at-risk segment: a left merge, a group filter, a descending sort and `head`;
- the profile whitelist handed to the text generator;
- the segment count;
- the star rating;
- the rule that recovers a JSON object from a reply with text around it.

## Files

| file | module | content |
|---|---|---|
| `results.dfy` | `Results` | `Option` and `Result` (an error carries a message). |
| `text.dfy` | `Text` | `str.strip`, `str.replace`, `find`/`rfind`, `str()` of numbers, and the decimal reading done by `pd.to_numeric`. |
| `sorting.dfy` | `Sorting` | A sort by a real key, proved to be an ordered permutation. |
| `frames.dfy` | `Frames` | `Cell = Int \| Num \| Str \| Missing`. A `Frame` is an ordered label list, a map from label to cells, and a row count. |
| `ai_lib.dfy` | `AiLib` | `_ensure_columns` and `preprocess_data`, with their constants. |
| `preprocess_props.dfy` | `PreprocessProperties` | The properties of preprocessing. |
| `inference.dfy` | `Inference` | `_as_prob`, `_get_thresholds`, `assign_risk_tier`, `tier_to_korean_label` and `predict_and_build`. |
| `marketing.dfy` | `Marketing` | `_clean_columns`, `_build_segment`, `_select_customer_fields`, `_summarize_segment`, `_stars`, and the JSON-recovery step of `_call_openai_json`. |

### How each kind of code is modelled

- **Loops that update a frame in place become methods with `while` loops.** Each method is proved equal to a specification function. These are:
  - the two column-adding loops of `_ensure_columns`;
  - the coercion loops of `preprocess_data`;
  - its final object-column loop;
  - the field loop of `_select_customer_fields`.
- **Whole-table expressions become functions.** These are derivation, filtering, `get_dummies`, `reindex`, the merge, the group filter and the segment sort. The column assignments and the sort of `predict_and_build` are also functions: `Inference.BuildTable` builds the scored rows with sequence comprehensions and sorts them with `Sorting.SortBy`. `Inference.PredictAndBuild` is a method without a loop around that function.
- **The classifier is a parameter.** Its `predict_proba` is an optional function from a frame to a 1-D or 2-D array, and its `feature_names_in_` is an optional label list.
- **The threshold artifact is a datatype.** It is a dict (entries in insertion order), a list or tuple, or anything else.

### Where the model follows the code rather than the design description

- **Tiering uses the rounded probability.** The tier is assigned from the rounded `churn_proba` column (modules/inference.py:106-109), not from the raw probability. `Inference.RoundedTierDiffers` exhibits a probability whose tier the rounding changes.
- **Labelled thresholds are not reordered.** A dict with `T90`, `T95` and `T99` is used as given, even when its values are not ascending (`Inference.LabelledNotReordered`).
- **Missing categoricals become the text "nan".** The fill with "UNKNOWN" after `astype(str)` never fires (`PreprocessProperties.CoercedMissingIsNan`).
- **A feature listed twice is refused.** If the classifier's feature list repeats a name other than the ID, `reindex` yields two columns with that label. The final dtype loop (modules/ai_lib.py:107-108) then reads a two-column frame, whose `.dtype` does not exist, and raises. The model returns an error there (`AiLib.PreprocessResult`, `PreprocessProperties.PreprocessRejects`).
- **No order is promised among ties.** Both sorts are pandas' default quicksort, which is not stable. Only "a permutation, ordered by probability" is stated.

## Model

| member | source | states |
|---|---|---|
| AiLib.EnsureColumns | modules/ai_lib.py:33-46 | Fails exactly when the ID column is absent. Otherwise every listed numeric and categorical name is a column. Existing columns keep their cells, and added ones hold the fill value on every row. The row count is kept. |
| AiLib.FillMissing | modules/ai_lib.py:38-44 | The column-adding loop produces `AddMissing`: the input plus each absent listed label, filled with the given value. |
| AiLib.AddMissing | modules/ai_lib.py:38-44 | Adds every listed label and keeps every existing column unchanged. Each new column is a listed label holding the fill value on all rows. Distinct labels stay distinct. |
| AiLib.EnsuredColumns | modules/ai_lib.py:38-44 | After both loops, a new column holds 0.0 if it is numeric and "UNKNOWN" if it is categorical. |
| AiLib.ConvertColumns | modules/ai_lib.py:80-84 | The coercion loops produce `Converted`: each listed column with the converter applied cell by cell, labels and rows unchanged. |
| AiLib.Prepare | modules/ai_lib.py:63-89 | Fails exactly when the ID column is absent. Otherwise the result is the reconciled, coerced table with the derived columns. |
| AiLib.Derived | modules/ai_lib.py:87-89 | Sets recent_3m_spent, past_3m_spent and spent_change_ratio to the per-row columns and keeps every other column. |
| AiLib.RatioCell | modules/ai_lib.py:89 | The ratio is recent / (past + 1.0), or Missing when the denominator is 0. |
| AiLib.Selected | modules/ai_lib.py:92-94 | Keeps exactly the listed labels that exist, in list order, with their cells. |
| AiLib.Encoded | modules/ai_lib.py:97 | On success, the labels are the non-categorical columns followed by one `{column}_{value}` per observed pair, all distinct, with the row count kept. |
| AiLib.Reindexed | modules/ai_lib.py:100 | The labels are exactly the feature list. Each label holds the encoded column of that name, or all 0. |
| AiLib.DropLabel | modules/ai_lib.py:103-104 | Removes every column with the ID label and keeps the rest with their cells. |
| AiLib.CoercedColumn | modules/ai_lib.py:107-109 | After the final loop a column holds no text. One that held none is unchanged; otherwise every cell is read as a number, with 0.0 on failure. |
| AiLib.CoerceObjectColumns | modules/ai_lib.py:107-109 | The final loop over all labels produces `ObjectsCoerced` of the table. |
| AiLib.ObjectsCoercedColumns | modules/ai_lib.py:107-109 | Each visited column is coerced and the others are untouched. |
| AiLib.Preprocess | modules/ai_lib.py:48-111 | The method's result is the whole preprocessing function `PreprocessResult`, including its refusal of a repeated feature. |
| AiLib.PreprocessResult | modules/ai_lib.py:48-111 | A success needs a non-empty table with the ID column. Its table is well formed, in distinct labels, with the input's row count, and its labels are the feature list without the ID. |
| PreprocessProperties.PreprocessRejects | modules/ai_lib.py:60-108 | An empty table is refused with the empty-input error. A table without the ID column is refused. A feature list repeating a name other than the ID is refused. |
| PreprocessProperties.ReconciledColumn | modules/ai_lib.py:72-77 | After reconciliation a needed column exists. It is unchanged if it was uploaded; otherwise it holds 0.0 (numeric) or "UNKNOWN" (categorical). |
| PreprocessProperties.CoercedNumeric | modules/ai_lib.py:79-81 | Every needed numeric cell is a number after coercion. Text is read as pandas reads a decimal: surrounding ASCII whitespace (space, tab through carriage return), a sign and an exponent are accepted; other Unicode whitespace makes the cell unreadable. A missing or unreadable cell becomes 0.0, and an added column holds 0.0. |
| PreprocessProperties.CoercedNoText | modules/ai_lib.py:79-81 | No needed numeric column holds text after coercion. |
| PreprocessProperties.CoercedCategorical | modules/ai_lib.py:83-84 | A categorical cell becomes the text of the uploaded cell, or "UNKNOWN" for an added column. |
| PreprocessProperties.CoercedMissingIsNan | modules/ai_lib.py:84 | A missing categorical cell becomes "nan", not "UNKNOWN". |
| PreprocessProperties.PreparedSpend | modules/ai_lib.py:87-89 | The three derived columns of row i are the recent sum, the past sum and their ratio cell. |
| PreprocessProperties.SpendSums | modules/ai_lib.py:87-88 | recent = m1 + m2 + m3 and past = m4 + m5 + m6, row by row. |
| PreprocessProperties.RatioDefined | modules/ai_lib.py:89 | With non-negative past spend the denominator is at least 1 and the ratio is recent / (past + 1.0). |
| PreprocessProperties.FilteredColumns | modules/ai_lib.py:92-94 | The filtered labels are distinct and are each the ID, a high-importance feature or a categorical. |
| PreprocessProperties.OneHotIndicator | modules/ai_lib.py:97 | For each column c and observed value v, column c_v exists and is 1 exactly on the rows whose c is v. |
| PreprocessProperties.OneHotExactlyOne | modules/ai_lib.py:97 | For each row and categorical column, the indicator of its own value is 1 and every other indicator is 0. |
| PreprocessProperties.EncodedColumn | modules/ai_lib.py:97 | A kept column is unchanged by encoding, and every indicator column holds only 0 and 1. |
| PreprocessProperties.PreprocessShape | modules/ai_lib.py:100-104 | The output labels are the feature list with the ID removed, in order. The row count is the input's, and the ID is absent. A feature absent after encoding is all 0; the others are the encoded columns. |
| PreprocessProperties.PreprocessValue | modules/ai_lib.py:97-109 | A successful result is the encoded filtered table, reindexed to the features, with the ID dropped and text columns coerced. |
| PreprocessProperties.PreprocessAccepts | modules/ai_lib.py:60-109 | A non-empty table with the ID column is accepted, provided the ID label is neither a feature nor an indicator name and no other feature is listed twice. |
| PreprocessProperties.DummyNameInjective | modules/ai_lib.py:97 | An indicator name determines its categorical column and value. |
| Text.Strip | modules/marketing_strategy.py:20 | strip() is no longer than its input, and what it keeps neither starts nor ends with whitespace. |
| Text.RemoveChar | modules/marketing_strategy.py:20 | replace(ch, "") keeps exactly the characters other than ch, with their multiplicities, and removes every ch. |
| Text.RemoveCharKeepsOrder | modules/marketing_strategy.py:20 | What replace(ch, "") keeps is the characters of the input other than ch, in their original order: each comes from an increasing list of positions that covers every position not holding ch. |
| Text.StripIsTrimmedInfix | modules/marketing_strategy.py:20 | strip() keeps an infix with no surrounding whitespace and removes only whitespace. |
| Text.StripIdempotent | modules/marketing_strategy.py:20 | strip() applied twice equals strip() applied once. |
| Text.IntTextParses | modules/ai_lib.py:81 | An integer written as text is read back by the numeric coercion as the same number. |
| Text.ParseExponentForm | modules/ai_lib.py:81 | "1e3" is read as 1000. |
| Text.ParseNegativeExponent | modules/ai_lib.py:81 | "-25E-1" is read as -2.5: the sign applies and a negative exponent divides. |
| Text.ParseSurroundingSpace | modules/ai_lib.py:81 | " 12 " is read as 12: surrounding ASCII whitespace is ignored. |
| Text.ParseNoBreakSpace | modules/ai_lib.py:81 | A number after a no-break space is not read as a number, although str.strip() would remove that space. |
| Text.ParseIgnoresAsciiPadding | modules/ai_lib.py:81 | Only ASCII whitespace at the ends is dropped before reading, and dropping it twice changes nothing: the trimmed text reads as the original does. |
| Text.TrimAscii | modules/ai_lib.py:81 | What is kept is an infix of the input, everything dropped is ASCII whitespace, and the kept text neither starts nor ends with it. |
| Text.ParseIncompleteExponent | modules/ai_lib.py:81 | "1e" and "e3" are not numbers. |
| Frames.ToNumber | modules/ai_lib.py:81 | The result is always a number. A number is kept, NaN becomes 0.0, and text becomes the decimal it reads as (only ASCII whitespace skipped at the ends), or 0.0. |
| Frames.NoBreakSpaceIsZero | modules/ai_lib.py:81 | Text with a leading no-break space before its digits coerces to 0.0. |
| Frames.ToText | modules/ai_lib.py:84 | The result is always text. Text is kept, NaN becomes "nan", and a number becomes its str(). |
| Frames.IntTextRoundTrip | modules/ai_lib.py:81-84 | An integer cell rendered as text comes back as the same value through the numeric coercion. |
| Inference.ModelFeatures | modules/inference.py:23-29 | The feature list is available exactly when the classifier records feature names, and it is that list. |
| Inference.AsProb | modules/inference.py:33-40 | Fails exactly without predict_proba. Otherwise returns column 1 of a 2-D array with at least two columns, and the flattened array otherwise. |
| Inference.AsProbPerRow | modules/inference.py:37-40 | For a 2-D array with at least one column, one probability per row: column 1 if there are two or more columns, else column 0. |
| Inference.GetThresholds | modules/inference.py:42-64 | A failure carries the unreadable-thresholds message and only a dict or a list can succeed. Outside the labelled dict case the three cut points come out ascending. |
| Inference.ThresholdsLabelled | modules/inference.py:49-52 | A dict holding T90, T95 and T99 yields exactly those three values, in that role. |
| Inference.LabelledNotReordered | modules/inference.py:51-52 | Labelled values are not sorted: (0.9, 0.5, 0.1) comes back as given. |
| Inference.ThresholdsSmallest | modules/inference.py:54-57 | An unlabelled dict with at least three values yields the three smallest, in ascending order. |
| Inference.ThresholdsFirstThree | modules/inference.py:59-62 | A list or tuple of at least three entries yields its first three, sorted ascending. |
| Inference.ThresholdsRefused | modules/inference.py:49-64 | The artifact is refused exactly when it is an unlabelled dict with fewer than three values, a list shorter than three, or another shape. |
| Inference.AssignRiskTier | modules/inference.py:66-74 | Tier 1 iff p >= T99, Tier 2 iff T95 <= p < T99, Tier 3 iff T90 <= p below both others, Tier 4 otherwise. Each cut point belongs to the more severe tier. |
| Inference.TierMonotone | modules/inference.py:66-74 | A larger probability never gets a less severe tier. |
| Inference.TierBands | modules/inference.py:66-74 | With ascending thresholds, Tier 3 is exactly [T90, T95) and Tier 4 exactly p < T90. |
| Inference.TierLabel | modules/inference.py:76-83 | Maps the four tiers to their fixed Korean labels and returns any other text unchanged. |
| Inference.LabelDeterminesTier | modules/inference.py:76-83 | Two tiers with the same label are the same tier. |
| Inference.Round6 | modules/inference.py:106 | The rounded value is within 0.0000005 of the input. |
| Inference.Round6Monotone | modules/inference.py:106 | Rounding to six digits keeps the order of probabilities. |
| Inference.RoundedTierAwayFromCuts | modules/inference.py:106-109 | Away from the cut points, rounding does not change the tier. |
| Inference.RoundedTierDiffers | modules/inference.py:106-109 | The tier comes from the rounded value: 0.9499996 is Tier 2 unrounded and Tier 1 once rounded. |
| Inference.PredictAndBuild | modules/inference.py:85-112 | The result is the error of `Scores` or its rows as a multiset, ordered by churn probability, highest first. |
| Inference.BuildTable | modules/inference.py:102-112 | After the column assignments and the sort, the rows are a permutation of the per-row scoring, ordered by probability. |
| Inference.Scores | modules/inference.py:85-112 | A success needs a non-empty table with the ID column, feature names, predict_proba and readable thresholds, and has one row per input row. |
| Inference.ScoresRejects | modules/inference.py:89-93 | An empty upload and a missing ID column are refused with their messages. |
| Inference.ScoresRows | modules/inference.py:95-107 | Once the artifacts and the preprocessing succeed, there is one output row per input row. |
| Inference.ScoredRowsLabelled | modules/inference.py:104-110 | Every row's risk_group is the label of its risk_tier, and its tier is the tier of its rounded probability. |
| Inference.ScoredRowAt | modules/inference.py:104-109 | Row i holds the ID as text, the probability rounded to six digits, and the tier of that rounded value. |
| Marketing.CleanName | modules/marketing_strategy.py:20 | A cleaned label has no byte-order mark and no leading or trailing whitespace. |
| Marketing.CleanNameTrims | modules/marketing_strategy.py:20 | A cleaned label is the label with its byte-order marks removed and then only whitespace trimmed at each end: an infix of that text, with whitespace before and after it. |
| Marketing.CleanColumns | modules/marketing_strategy.py:18-21 | The cleaned labels are the input's, cleaned one by one in order, with rows kept. Labels that collide once cleaned are refused. |
| Marketing.CleanColumnsCells | modules/marketing_strategy.py:18-21 | Label i is the cleaned label i and holds column i's cells. |
| Marketing.CleanColumnsIdempotent | modules/marketing_strategy.py:18-21 | Cleaning a cleaned table changes nothing. |
| Marketing.MissingRequired | modules/marketing_strategy.py:28-29 | Lists exactly the required prediction columns the table lacks. |
| Marketing.BuildSegment | modules/marketing_strategy.py:24-46 | Succeeds exactly when both tables clean without a collision, the prediction table has the four required columns and the raw table has customer_id. |
| Marketing.BuildSegmentRefuses | modules/marketing_strategy.py:28-34 | Refused exactly when the prediction table lacks a required column or the raw table lacks customer_id. |
| Marketing.WithTextIds | modules/marketing_strategy.py:36-37 | customer_id becomes text, and the rest is unchanged. |
| Marketing.Joined | modules/marketing_strategy.py:39 | A merged row holds every prediction cell, and the raw cells (or Missing) under the other labels. |
| Marketing.MergedKeepsLeft | modules/marketing_strategy.py:39 | A left merge never loses a prediction row. |
| Marketing.MergedOneToOne | modules/marketing_strategy.py:39 | With unique raw IDs, the merge has exactly one row per prediction row. |
| Marketing.DuplicateIdMultiplies | modules/marketing_strategy.py:39 | A prediction row whose ID appears twice in the raw table yields at least two merged rows. |
| Marketing.MergedFromLeft | modules/marketing_strategy.py:39 | Every merged row carries all cells of some prediction row. |
| Marketing.InGroup | modules/marketing_strategy.py:41 | Keeps exactly the rows of the requested group, as a sub-multiset. |
| Marketing.InGroupCount | modules/marketing_strategy.py:41 | A row of the group occurs in the filter as often as in the merged rows; any other row does not occur. |
| Marketing.HeadIsTop | modules/marketing_strategy.py:42-43 | The head of a probability-ordered sequence holds its highest rows: no row left out has a number above a row kept. |
| Marketing.ByProbabilityOrdered | modules/marketing_strategy.py:42 | After the sort, rows are in non-increasing probability with NaN at the end. |
| Marketing.Head | modules/marketing_strategy.py:43 | A prefix of min(n, length) rows, or for negative n all but the last -n. |
| Marketing.TopOfGroupShape | modules/marketing_strategy.py:40-45 | The segment is a sub-multiset of the group's rows, all in the group, and ordered by probability. It has min(top_n, group size) rows, or all but the last -top_n for a negative top_n. No group row left out has a higher numeric probability than a row kept. |
| Marketing.SegmentRows | modules/marketing_strategy.py:24-46 | Every returned row is in the requested group with a text customer_id, a probability and a tier. Rows are ordered by probability and form a sub-multiset of the merged group. There are min(top_n, group size) of them for top_n >= 0, and no merged group row left out has a higher probability than a row kept. |
| Marketing.SegmentOfFromLeft | modules/marketing_strategy.py:39-45 | Every segment row carries all cells of a prediction row. |
| Marketing.SelectCustomerFields | modules/marketing_strategy.py:49-65 | The entries are the whitelist names the row has, in whitelist order, each holding the row's value, or None for NaN. |
| Marketing.SelectFields | modules/marketing_strategy.py:60-65 | The same loop over any whitelist. |
| Marketing.SelectedKeys | modules/marketing_strategy.py:51-65 | A name is selected iff it is whitelisted and in the row, and no name is selected twice. |
| Marketing.FieldValue | modules/marketing_strategy.py:64 | NaN becomes None, and any other value is kept. |
| Marketing.SummarizeSegment | modules/marketing_strategy.py:68-74 | The count is the segment length, and an empty segment reports no average. |
| Marketing.SummaryOfSegment | modules/marketing_strategy.py:68-74 | The summary of a built segment counts at most top_n rows and reports an average whenever it is non-empty. |
| Marketing.Clamp | modules/marketing_strategy.py:179 | Clamps to 1..5. |
| Marketing.Stars | modules/marketing_strategy.py:178-180 | Five characters: ★ at positions below clamp(n) and ☆ after. |
| Marketing.StarsCount | modules/marketing_strategy.py:178-180 | Exactly clamp(n) ★ and 5 - clamp(n) ☆. |
| Marketing.Braced | modules/marketing_strategy.py:102-106 | A recovered span starts with `{` and ends with `}`. |
| Marketing.BracedAbsent | modules/marketing_strategy.py:102-104 | There is no span exactly when a `{` or a `}` is missing, or the last `}` comes before the first `{`. |
| Marketing.BracedSpan | modules/marketing_strategy.py:102-106 | The span runs from the first `{` to the last `}`, inclusive. |
| Marketing.BracedIsOutermost | modules/marketing_strategy.py:102-103 | No `{` precedes the span and no `}` follows it. |
| Marketing.DecodeResponse | modules/marketing_strategy.py:97-111 | A reply that parses is returned as parsed. Any failure carries the reply text in its message. |
| Marketing.DecodeFallback | modules/marketing_strategy.py:99-111 | When the reply does not parse, success happens exactly when the stripped reply has a braced span that parses, and the result is that parse. |
| Sorting.SortBy | modules/inference.py:112 | The sort returns a permutation of its input. |
| Sorting.SortBySorted | modules/inference.py:112 | The sort returns a permutation of its input, ordered by the key. |

## Left out

- Reading files, the `joblib` artifacts and the framework's caching in `load_artifacts` are left out. The classifier and the threshold artifact are parameters; only the feature-list check is modelled.
- The classifier's computation is a parameter of the model.
- The text-generator client, its API key, the prompt text and the response-text fallback (`output_text`, then `output[0]`, then `str(resp)`) are network and library code. The reply arrives as a string. JSON decoding is a parameter, `parse`.
- UI rendering, routing, login and the customer-extraction page are not part of this model.
- Inference.Round6: works on exact reals with round-half-even to six digits. Floating-point representation error is not modelled.
- Marketing.SummarizeSegment: the average probability is not computed. Only whether one is reported is modelled, since it is a floating-point mean.
- AiLib.RatioCell: a zero denominator gives NaN or inf in pandas and Missing here. It only arises when the three past months sum to exactly -1.
- AiLib.Encoded: indicator columns are listed in first-appearance order, whereas pandas sorts them. The reindex step erases the difference.
- AiLib.Encoded: a label collision that pandas would carry (an ID label equal to a feature or an indicator name) becomes an error.
- Marketing.CleanColumns: two labels that clean to the same text are refused, where pandas would keep both columns under one label.
- PreprocessProperties.PreprocessAccepts: states a sufficient condition for success, not an if-and-only-if.
- Marketing.Joined: the merged table's suffixed duplicate columns (raw columns that share a prediction label get a `_raw` suffix) are not modelled. Only the unsuffixed view is kept, where the prediction cell wins.
- Marketing.ByProbabilityOrdered: an order among rows with equal probability is not stated, because both pandas sorts are unstable. Text probabilities in the segment sort are treated like NaN.
- Text.ParseDecimal: "inf", "infinity" and "nan" read as no number, since a real cannot hold them. pandas reads the infinities as infinite floats, which the fill keeps. For "nan" the outcome agrees, since NaN is filled with 0.0.
- PreprocessProperties.CoercedNumeric: an infinite text value ("inf") becomes 0.0 here but stays infinite in pandas.
- Text.NumText: floats below 1e-4 in magnitude or from 1e16 are written positionally, where Python's str() uses exponent notation (for example "1e-05"). This affects astype(str) of float cells in a categorical column (modules/ai_lib.py:84).
- Inference.AsProb: arrays of more than two dimensions are not modelled.
- Inference.GetThresholds: threshold values are already reals. A failure of `float(v)` on a non-numeric value is not modelled.
- Error messages are English paraphrases of the original Korean messages. Their conditions are exact. The prefix of columns shown in the ID-column message is not reproduced.
- The input frame is never mutated. All steps work on values, which matches the copies the code takes.
