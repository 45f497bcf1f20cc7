/**
 * The evaluation endpoints (app/routers/metrics.py): which ROUGE types are
 * scored and the keys of the result, and the per-row score list of
 * `evaluate_embedding`.
 *
 * The ROUGE scorer, the RAG chain and the embedding evaluator are
 * parameters; a score is of an abstract type `S`, so the rounding to five
 * places and the folding of `-0.0` belong to the evaluator parameter.
 */
module Metrics {
  import opened Wrappers

  /** `valid_rouge_types`. */
  const VALID_ROUGE_TYPES: set<string> := {"rouge1", "rouge2", "rougeL"}

  /** The default `rouge_types` argument. */
  const DEFAULT_ROUGE_TYPES: seq<string> := ["rouge1", "rouge2", "rougeL"]

  /** `[t for t in rouge_types if t in valid_rouge_types]`. */
  function FilterRougeTypes(types: seq<string>): (r: seq<string>)
    ensures forall t <- r :: t in VALID_ROUGE_TYPES
    ensures forall t :: multiset(r)[t] == if t in VALID_ROUGE_TYPES then multiset(types)[t] else 0
  {
    if |types| == 0 then []
    else
      var rest := FilterRougeTypes(types[1..]);
      assert types == [types[0]] + types[1..];
      if types[0] in VALID_ROUGE_TYPES then [types[0]] + rest else rest
  }

  /** The filter keeps order: filtering a concatenation concatenates the filtered parts. */
  lemma {:induction false} FilterAppend(a: seq<string>, b: seq<string>)
    ensures FilterRougeTypes(a + b) == FilterRougeTypes(a) + FilterRougeTypes(b)
    decreases |a|
  {
    if |a| == 0 {
      assert a + b == b;
    } else {
      assert (a + b)[1..] == a[1..] + b;
      FilterAppend(a[1..], b);
    }
  }

  /** Valid types pass through unchanged, and only they do. */
  lemma FilterKeepsValid(types: seq<string>)
    ensures FilterRougeTypes(types) == types <==> forall t <- types :: t in VALID_ROUGE_TYPES
    ensures FilterRougeTypes(types) == [] <==> forall t <- types :: t !in VALID_ROUGE_TYPES
  {
    if forall t <- types :: t in VALID_ROUGE_TYPES {
      FilterAllValid(types);
    }
    if FilterRougeTypes(types) == [] {
      forall t <- types
        ensures t !in VALID_ROUGE_TYPES
      {
        assert multiset(types)[t] > 0;
      }
    } else {
      var t := FilterRougeTypes(types)[0];
      assert multiset(FilterRougeTypes(types))[t] > 0;
      assert t in types;
    }
  }

  lemma {:induction false} FilterAllValid(types: seq<string>)
    requires forall t <- types :: t in VALID_ROUGE_TYPES
    ensures FilterRougeTypes(types) == types
    decreases |types|
  {
    if |types| > 0 {
      FilterAllValid(types[1..]);
      assert [types[0]] + types[1..] == types;
    }
  }

  /**
   * `calculate_rouge_similarity`: with no valid type left a `ValueError` is
   * raised before any scorer is built; otherwise each kept type maps to its
   * score for the pair. `score(types, labelText, predict, t)` is the score of
   * type `t` from the scorer built for `types`.
   */
  function CalculateRougeSimilarity<S>(labelText: string, predict: string, rougeTypes: seq<string>,
                                       score: (seq<string>, string, string, string) -> S): (r: Result<map<string, S>, PyError>)
    ensures FilterRougeTypes(rougeTypes) == [] <==> r.Err?
    ensures r.Err? ==> r.error == ValueError("Invalid ROUGE type")
    ensures r.Ok? ==> r.value.Keys == set t | t in FilterRougeTypes(rougeTypes)
    ensures r.Ok? ==> forall t <- r.value.Keys :: r.value[t] == score(FilterRougeTypes(rougeTypes), labelText, predict, t)
  {
    var types := FilterRougeTypes(rougeTypes);
    if types == [] then Err(ValueError("Invalid ROUGE type"))
    else Ok(map t | t in types :: score(types, labelText, predict, t))
  }

  /** Only valid types are keys, and a request with no valid type fails. */
  lemma RougeKeysValid<S>(labelText: string, predict: string, rougeTypes: seq<string>,
                          score: (seq<string>, string, string, string) -> S)
    ensures var r := CalculateRougeSimilarity(labelText, predict, rougeTypes, score);
      (r.Ok? ==> r.value.Keys <= VALID_ROUGE_TYPES) &&
      (r.Err? <==> forall t <- rougeTypes :: t !in VALID_ROUGE_TYPES)
  {
    FilterKeepsValid(rougeTypes);
  }

  /** The default request scores all three types. */
  lemma DefaultScoresAll<S>(labelText: string, predict: string, score: (seq<string>, string, string, string) -> S)
    ensures var r := CalculateRougeSimilarity(labelText, predict, DEFAULT_ROUGE_TYPES, score);
      r.Ok? && r.value.Keys == VALID_ROUGE_TYPES
  {
    FilterAllValid(DEFAULT_ROUGE_TYPES);
    assert forall t :: t in DEFAULT_ROUGE_TYPES <==> t in VALID_ROUGE_TYPES;
  }

  /** A DataFrame: its column names and its rows, each a map from column name to cell. */
  datatype Frame = Frame(columns: set<string>, rows: seq<map<string, string>>)
  {
    /** Every row holds exactly the frame's columns. */
    predicate Valid()
    {
      forall i :: 0 <= i < |rows| ==> rows[i].Keys == columns
    }
  }

  /** The score list `evaluate_embedding` builds, one entry per row in row order. */
  function RowScores<S>(df: Frame, queryCol: string, labelCol: string, chain: string -> string, evaluate: (string, string) -> S): (r: seq<S>)
    requires df.Valid() && queryCol in df.columns && labelCol in df.columns
    ensures |r| == |df.rows|
  {
    seq(|df.rows|, i requires 0 <= i < |df.rows| => evaluate(chain(df.rows[i][queryCol]), df.rows[i][labelCol]))
  }

  /**
   * `evaluate_embedding`: for each row, the query and label cells are read,
   * the chain answers the query and the evaluator scores the answer against
   * the label; the result is `{'score': scores}`, given here as the list.
   * Reading a missing column raises `KeyError`, at the first row; a frame
   * without rows gives an empty list whatever the columns.
   */
  method EvaluateEmbedding<S>(df: Frame, queryCol: string, labelCol: string,
                              chain: string -> string, evaluate: (string, string) -> S)
      returns (r: Result<seq<S>, PyError>)
    requires df.Valid()
    ensures |df.rows| > 0 && queryCol !in df.columns ==> r == Err(KeyError(queryCol))
    ensures |df.rows| > 0 && queryCol in df.columns && labelCol !in df.columns ==> r == Err(KeyError(labelCol))
    ensures |df.rows| == 0 ==> r == Ok([])
    ensures queryCol in df.columns && labelCol in df.columns ==> r == Ok(RowScores(df, queryCol, labelCol, chain, evaluate))
  {
    var scores: seq<S> := [];
    for i := 0 to |df.rows|
      invariant i > 0 ==> queryCol in df.columns && labelCol in df.columns
      invariant i > 0 ==> scores == RowScores(df, queryCol, labelCol, chain, evaluate)[..i]
      invariant i == 0 ==> scores == []
    {
      if queryCol !in df.rows[i] {
        return Err(KeyError(queryCol));
      }
      var query := df.rows[i][queryCol];
      if labelCol !in df.rows[i] {
        return Err(KeyError(labelCol));
      }
      var labelText := df.rows[i][labelCol];
      var predict := chain(query);
      var extractedScore := evaluate(predict, labelText);
      scores := scores + [extractedScore];
    }
    if |df.rows| > 0 {
      assert RowScores(df, queryCol, labelCol, chain, evaluate)[..|df.rows|] == RowScores(df, queryCol, labelCol, chain, evaluate);
    }
    return Ok(scores);
  }
}
