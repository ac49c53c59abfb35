/** The static algorithm table `algoNameMap` of app.py and the file paths
    derived from a model name. */
module Algorithms {
  import opened Results

  /** One entry of the table: the artifact's base name, which of the three
      score maps it reads, and the columns it was trained on ([] means all). */
  datatype Descriptor = Descriptor(modelName: string, modelIndex: int, columns: seq<string>)

  const RawScore := "NeuralNet- Raw Score"
  const RawScoreBig5 := "NeuralNet- Raw Score - Big5"
  const RawScoreAggressive := "NeuralNet- Raw Score - Aggressive"
  const PercentileScore := "NeuralNet- Percentile Score"
  const CategoricalScore := "NeuralNet- Categorical Score"
  const CategoricalScoreTop5 := "NeuralNet- Categorical Score - Top5"

  const Big5Columns: seq<string> := ["openness", "conscientiousness", "extraversion", "agreeableness", "neuroticism"]
  const Top5Columns: seq<string> := ["cogproc", "function", "relativ", "verb", "social"]

  /** Every entry reads one of the three score maps: its index is 0, 1 or 2. */
  predicate WellFormed(table: map<string, Descriptor>) {
    forall name :: name in table ==> 0 <= table[name].modelIndex <= 2
  }

  /** The table as the module-level statements leave it: exactly the six
      algorithms, each reading one of the three score maps. */
  function AlgoTable(): (table: map<string, Descriptor>)
    ensures table.Keys == {RawScore, RawScoreBig5, RawScoreAggressive, PercentileScore, CategoricalScore, CategoricalScoreTop5}
    ensures WellFormed(table)
  {
    map[
      RawScore := Descriptor("liwc_raw_scores_full", 0, []),
      RawScoreBig5 := Descriptor("liwc_raw_scores_full_big5", 0, Big5Columns),
      RawScoreAggressive := Descriptor("liwc_raw_scores_full_aggressive", 0, ["aggressive"]),
      PercentileScore := Descriptor("liwc_percentile_scores_full", 1, []),
      CategoricalScore := Descriptor("liwc_categorical_scores_full", 2, []),
      CategoricalScoreTop5 := Descriptor("liwc_categorical_scores_full_top5", 2, Top5Columns)
    ]
  }

  /** No two algorithms share a model name, so no two share a model file or a
      matrix file. The six names have six different lengths. */
  lemma ModelNamesDistinct(a: string, b: string)
    requires a in AlgoTable() && b in AlgoTable() && a != b
    ensures AlgoTable()[a].modelName != AlgoTable()[b].modelName
  {
    var t := AlgoTable();
    assert |t[RawScore].modelName| == 20;
    assert |t[RawScoreBig5].modelName| == 25;
    assert |t[RawScoreAggressive].modelName| == 31;
    assert |t[PercentileScore].modelName| == 27;
    assert |t[CategoricalScore].modelName| == 28;
    assert |t[CategoricalScoreTop5].modelName| == 33;
  }

  /** Builds the table by six successive key assignments, as lines 32-38 do. */
  method BuildAlgoTable() returns (table: map<string, Descriptor>)
    ensures table == AlgoTable()
    ensures WellFormed(table)
  {
    table := map[];
    table := table[RawScore := Descriptor("liwc_raw_scores_full", 0, [])];
    table := table[RawScoreBig5 := Descriptor("liwc_raw_scores_full_big5", 0, Big5Columns)];
    table := table[RawScoreAggressive := Descriptor("liwc_raw_scores_full_aggressive", 0, ["aggressive"])];
    table := table[PercentileScore := Descriptor("liwc_percentile_scores_full", 1, [])];
    table := table[CategoricalScore := Descriptor("liwc_categorical_scores_full", 2, [])];
    table := table[CategoricalScoreTop5 := Descriptor("liwc_categorical_scores_full_top5", 2, Top5Columns)];
  }

  // ---------------------------------------------------------------------------
  // Paths
  // ---------------------------------------------------------------------------

  const ModelDir := "models/"
  const ModelExt := ".h5"
  const MatrixDir := "data/matrix/"
  const MatrixSuffix := "_matrix.txt"

  /** Recovers the model name from a path `prefix + name + suffix`. */
  function BaseName(path: string, prefix: string, suffix: string): Option<string> {
    if |prefix| + |suffix| <= |path| && path[..|prefix|] == prefix && path[|path| - |suffix|..] == suffix
    then Some(path[|prefix|..|path| - |suffix|])
    else None
  }

  /** The model artifact path of line 114: the model name is recoverable from
      it, so distinct names give distinct paths. */
  function ModelPath(modelName: string): (path: string)
    ensures BaseName(path, ModelDir, ModelExt) == Some(modelName)
    ensures |path| == |modelName| + 10
  {
    var p := ModelDir + modelName + ModelExt;
    assert p[..|ModelDir|] == ModelDir;
    assert p[|p| - |ModelExt|..] == ModelExt;
    assert p[|ModelDir|..|p| - |ModelExt|] == modelName;
    p
  }

  /** The comparison-matrix path of line 163, recoverable in the same way. */
  function MatrixPath(modelName: string): (path: string)
    ensures BaseName(path, MatrixDir, MatrixSuffix) == Some(modelName)
    ensures |path| == |modelName| + 23
  {
    var p := MatrixDir + modelName + MatrixSuffix;
    assert p[..|MatrixDir|] == MatrixDir;
    assert p[|p| - |MatrixSuffix|..] == MatrixSuffix;
    assert p[|MatrixDir|..|p| - |MatrixSuffix|] == modelName;
    p
  }

  /** For every algorithm, its model file and its matrix file carry the same
      base name: the entry's model name. */
  lemma ArtifactsMatch(name: string)
    requires name in AlgoTable()
    ensures var m := AlgoTable()[name].modelName;
            BaseName(ModelPath(m), ModelDir, ModelExt) == BaseName(MatrixPath(m), MatrixDir, MatrixSuffix) == Some(m)
  {
  }
}
