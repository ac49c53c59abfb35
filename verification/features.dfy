/** Feature selection in `predictions` (app.py:101-114): pick one of the three
    score maps by the algorithm's index, make it a one-row table, and keep
    only the algorithm's columns. Score values are opaque (`V`). */
module Features {
  import opened Results
  import opened Algorithms

  /** A score map in insertion order: the columns of the one-row table that
      pandas builds from it, with their values. This is the behaviour of
      pandas 0.25 and later; earlier releases sorted the columns by name.
      Keys are assumed distinct, as in the Python dict the row comes from;
      should a key repeat, `Lookup` reads its first occurrence. */
  type Row<V> = seq<(string, V)>

  function Columns<V>(row: Row<V>): (cols: seq<string>)
    ensures |cols| == |row|
    ensures forall i :: 0 <= i < |row| ==> cols[i] == row[i].0
  {
    if row == [] then [] else [row[0].0] + Columns(row[1..])
  }

  /** The value stored under `key` (the first one, should a key repeat). */
  function Lookup<V>(row: Row<V>, key: string): (r: Option<V>)
    ensures r.Some? <==> key in Columns(row)
    ensures r.Some? ==> (key, r.value) in row
  {
    if row == [] then None
    else if row[0].0 == key then Some(row[0].1)
    else Lookup(row[1..], key)
  }

  /** The columns of `cols` that the table lacks, in order. */
  function Missing<V>(row: Row<V>, cols: seq<string>): (missing: seq<string>)
    ensures forall c :: c in missing <==> c in cols && c !in Columns(row)
  {
    if cols == [] then []
    else (if cols[0] in Columns(row) then [] else [cols[0]]) + Missing(row, cols[1..])
  }

  /** The table restricted to `cols`, every one of which it has. */
  function Pick<V>(row: Row<V>, cols: seq<string>): (r: Row<V>)
    requires forall c :: c in cols ==> c in Columns(row)
    ensures Columns(r) == cols
    ensures forall i :: 0 <= i < |cols| ==> Lookup(row, cols[i]) == Some(r[i].1)
  {
    if cols == [] then []
    else
      var rest := Pick(row, cols[1..]);
      assert forall i :: 1 <= i < |cols| ==> cols[i] == cols[1..][i - 1];
      [(cols[0], Lookup(row, cols[0]).value)] + rest
  }

  /** `Xnew[cols]`: exactly the listed columns in the listed order, or a
      KeyError naming every listed column the table lacks. */
  function Project<V>(row: Row<V>, cols: seq<string>): (r: Result<Row<V>>)
    ensures r.Ok? <==> forall c :: c in cols ==> c in Columns(row)
    ensures r.Ok? ==> Columns(r.value) == cols
    ensures r.Ok? ==> forall i :: 0 <= i < |cols| ==> Lookup(row, cols[i]) == Some(r.value[i].1)
    ensures r.Err? ==> r.error.MissingColumns? && r.error.columns != []
    ensures r.Err? ==> forall c :: c in r.error.columns <==> c in cols && c !in Columns(row)
  {
    var missing := Missing(row, cols);
    if missing != [] then
      assert missing[0] in missing;
      Err(MissingColumns(missing))
    else Ok(Pick(row, cols))
  }

  /** The triple `(raw_score, percentile_score, category_score)` that
      `sendLIWC` returns. */
  datatype Bundle<V> = Bundle(raw: Row<V>, percentiles: Row<V>, categories: Row<V>) {

    /** Python tuple indexing: 0..2 from the front, -3..-1 from the back,
        IndexError otherwise. */
    function At(i: int): (r: Result<Row<V>>)
      ensures r.Ok? <==> -3 <= i < 3
      ensures (i == 0 || i == -3) ==> r == Ok(raw)
      ensures (i == 1 || i == -2) ==> r == Ok(percentiles)
      ensures (i == 2 || i == -1) ==> r == Ok(categories)
    {
      var items := [raw, percentiles, categories];
      if 0 <= i < 3 then Ok(items[i])
      else if -3 <= i < 0 then Ok(items[i + 3])
      else Err(ScoreIndexOutOfRange(i))
    }
  }

  /** Lines 102-108: look the algorithm up, take its score map, project it
      onto its columns when it lists any. The lookup error happens exactly for
      a name outside the table; the only other failure is an absent column;
      on success a non-empty column list is exactly the result's columns. */
  function SelectFeatures<V>(bundle: Bundle<V>, algoName: string): (r: Result<Row<V>>)
    ensures r == Err(UnknownAlgorithm(algoName)) <==> algoName !in AlgoTable()
    ensures r.Err? ==> r.error.UnknownAlgorithm? || r.error.MissingColumns?
    ensures r.Ok? ==> algoName in AlgoTable()
    ensures r.Ok? && algoName in AlgoTable() && AlgoTable()[algoName].columns != [] ==>
              Columns(r.value) == AlgoTable()[algoName].columns
  {
    if algoName !in AlgoTable() then Err(UnknownAlgorithm(algoName))
    else
      var entry := AlgoTable()[algoName];
      match bundle.At(entry.modelIndex)
      case Err(e) => Err(e)
      case Ok(row) => if entry.columns != [] then Project(row, entry.columns) else Ok(row)
  }

  /** The score map an entry reads, for an index of 0, 1 or 2. */
  function ScoreMapFor<V>(bundle: Bundle<V>, entry: Descriptor): Row<V>
    requires 0 <= entry.modelIndex <= 2
  {
    [bundle.raw, bundle.percentiles, bundle.categories][entry.modelIndex]
  }

  /** For every table entry the tuple index is in range, so the selection is
      the entry's own score map, whole when the entry lists no columns and
      projected onto them otherwise. */
  lemma SelectKnownAlgorithm<V>(bundle: Bundle<V>, algoName: string)
    requires algoName in AlgoTable()
    ensures var entry := AlgoTable()[algoName];
            && 0 <= entry.modelIndex <= 2
            && var row := ScoreMapFor(bundle, entry);
               SelectFeatures(bundle, algoName) == if entry.columns == [] then Ok(row) else Project(row, entry.columns)
  {
  }

  /** "NeuralNet- Raw Score - Big5" feeds the model exactly the five Big Five
      raw scores, in order, and fails when the raw map lacks one of them. */
  lemma SelectBig5<V>(bundle: Bundle<V>)
    ensures var r := SelectFeatures(bundle, RawScoreBig5);
            && (r.Ok? <==> forall c :: c in Big5Columns ==> c in Columns(bundle.raw))
            && (r.Ok? ==> Columns(r.value) == ["openness", "conscientiousness", "extraversion", "agreeableness", "neuroticism"])
            && (r.Ok? ==> forall i :: 0 <= i < 5 ==> Lookup(bundle.raw, Big5Columns[i]) == Some(r.value[i].1))
  {
  }
}
