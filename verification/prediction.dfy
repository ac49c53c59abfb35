/** The `/predict` request (app.py:131-168) with its collaborators passed in:
    `fetch` stands for the paginated feed client, whose failures (an API error
    from `user_timeline`, or a KeyError for a post that lacks a field) end the
    request, `score` for the remote
    scoring call, `classify` for loading the model file at a path and running
    it on the feature row, and `loadMatrix` for reading the matrix file. */
module Prediction {
  import opened Results
  import opened Algorithms
  import opened Features
  import opened Aggregate
  import opened Response

  /** The fields a successful request puts in its packet before the merge. */
  datatype PacketFields = PacketFields(
    handle: string, algoName: string, predicted: string, features: seq<string>, matrix: map<string, Json>)

  /** What one request yields, stage by stage, each failure ending it. */
  function PredictOutcome<V>(form: map<string, string>,
                             fetch: string -> Result<seq<Post>>,
                             score: string -> Result<Bundle<V>>,
                             classify: (string, Row<V>) -> Result<int>,
                             loadMatrix: string -> Result<map<string, Json>>): (r: Result<PacketFields>)
    ensures "handle" in form && "algoname" !in form ==> r == Err(MissingFormField("algoname"))
    ensures r.Ok? ==>
              && "handle" in form && "algoname" in form
              && r.value.handle == form["handle"] && r.value.algoName == form["algoname"]
              && form["algoname"] in AlgoTable()
              && r.value.features == AlgoTable()[form["algoname"]].columns
              && (r.value.predicted == Republican || r.value.predicted == Democrat)
  {
    if "handle" !in form then Err(MissingFormField("handle"))
    else if "algoname" !in form then Err(MissingFormField("algoname"))
    else
      var handle, algoName := form["handle"], form["algoname"];
      var posts :- fetch(handle);
      var texts :- FormattedColumn(posts);
      var bundle :- score(Joined(texts));
      var features :- SelectFeatures(bundle, algoName);
      var entry := AlgoTable()[algoName];
      var predictedClass :- classify(ModelPath(entry.modelName), features);
      var matrix :- loadMatrix(MatrixPath(entry.modelName));
      Ok(PacketFields(handle, algoName, if predictedClass == 1 then Republican else Democrat, entry.columns, matrix))
  }

  /** The request handler: one packet on success, the first failure otherwise. */
  method Predict<V>(form: map<string, string>,
                    fetch: string -> Result<seq<Post>>,
                    score: string -> Result<Bundle<V>>,
                    classify: (string, Row<V>) -> Result<int>,
                    loadMatrix: string -> Result<map<string, Json>>)
    returns (r: Result<seq<map<string, Json>>>)
    ensures var outcome := PredictOutcome(form, fetch, score, classify, loadMatrix);
            && (r.Ok? <==> outcome.Ok?)
            && (r.Err? ==> r.error == outcome.error)
            && (r.Ok? ==> |r.value| == 1 && var f := outcome.value;
                          IsPacket(r.value[0], f.handle, f.algoName, f.predicted, f.features, f.matrix))
  {
    if "handle" !in form {
      return Err(MissingFormField("handle"));
    }
    var handle := form["handle"];
    if "algoname" !in form {
      return Err(MissingFormField("algoname"));
    }
    var algoName := form["algoname"];
    var tweets :- fetch(handle);
    var formatted :- FormattedColumn(tweets);
    var text := AggregateText(formatted);
    var bundle :- score(text);
    var features :- SelectFeatures(bundle, algoName);
    var entry := AlgoTable()[algoName];
    var predictedClass :- classify(ModelPath(entry.modelName), features);
    var predicted := PartyLabel(predictedClass);
    var matrix :- loadMatrix(MatrixPath(entry.modelName));
    var packet := AssemblePacket(handle, algoName, predicted, entry.columns, matrix);
    r := Ok([packet]);
  }

  /** A request without a `handle` field fails on that field, whatever the
      collaborators would have done: no fetch or scoring result matters. */
  lemma MissingHandleFailsFirst<V>(form: map<string, string>,
                                   fetch: string -> Result<seq<Post>>,
                                   score: string -> Result<Bundle<V>>,
                                   classify: (string, Row<V>) -> Result<int>,
                                   loadMatrix: string -> Result<map<string, Json>>)
    requires "handle" !in form
    ensures PredictOutcome(form, fetch, score, classify, loadMatrix) == Err(MissingFormField("handle"))
  {
  }

  /** A failing feed ends the request with the feed's own error, before any
      scoring, model or matrix collaborator is consulted. */
  lemma FeedFailureEndsRequest<V>(form: map<string, string>,
                                  fetch: string -> Result<seq<Post>>,
                                  score: string -> Result<Bundle<V>>,
                                  classify: (string, Row<V>) -> Result<int>,
                                  loadMatrix: string -> Result<map<string, Json>>)
    requires "handle" in form && "algoname" in form && fetch(form["handle"]).Err?
    ensures PredictOutcome(form, fetch, score, classify, loadMatrix) == Err(fetch(form["handle"]).error)
  {
  }

  /** With no posts the request fails at the frame column lookup. */
  lemma NoPostsFails<V>(form: map<string, string>,
                        fetch: string -> Result<seq<Post>>,
                        score: string -> Result<Bundle<V>>,
                        classify: (string, Row<V>) -> Result<int>,
                        loadMatrix: string -> Result<map<string, Json>>)
    requires "handle" in form && "algoname" in form && fetch(form["handle"]) == Ok([])
    ensures PredictOutcome(form, fetch, score, classify, loadMatrix) == Err(MissingFrameColumn("full_text"))
  {
  }

  /** An unknown algorithm name fails with the lookup error once scoring has
      succeeded, and no packet is produced. */
  lemma UnknownAlgorithmFails<V>(form: map<string, string>,
                                 fetch: string -> Result<seq<Post>>,
                                 score: string -> Result<Bundle<V>>,
                                 classify: (string, Row<V>) -> Result<int>,
                                 loadMatrix: string -> Result<map<string, Json>>,
                                 posts: seq<Post>, texts: seq<string>)
    requires "handle" in form && "algoname" in form && form["algoname"] !in AlgoTable()
    requires fetch(form["handle"]) == Ok(posts) && FormattedColumn(posts) == Ok(texts)
    requires score(Joined(texts)).Ok?
    ensures PredictOutcome(form, fetch, score, classify, loadMatrix) == Err(UnknownAlgorithm(form["algoname"]))
  {
  }

  /** A successful request names a known algorithm, feeds its model the
      selected features, labels class 1 (and only class 1) "Republican",
      reports the entry's column list as its features and merges the matrix
      read from that entry's matrix path. */
  lemma SuccessfulOutcome<V>(form: map<string, string>,
                             fetch: string -> Result<seq<Post>>,
                             score: string -> Result<Bundle<V>>,
                             classify: (string, Row<V>) -> Result<int>,
                             loadMatrix: string -> Result<map<string, Json>>)
    ensures var outcome := PredictOutcome(form, fetch, score, classify, loadMatrix);
            outcome.Ok? ==>
              && "handle" in form && "algoname" in form
              && outcome.value.handle == form["handle"]
              && outcome.value.algoName == form["algoname"]
              && form["algoname"] in AlgoTable()
              && fetch(form["handle"]).Ok? && fetch(form["handle"]).value != []
              && var text := Joined(FormattedColumn(fetch(form["handle"]).value).value);
                 && score(text).Ok?
                 && SelectFeatures(score(text).value, form["algoname"]).Ok?
                 && var entry := AlgoTable()[form["algoname"]];
                    && var features := SelectFeatures(score(text).value, form["algoname"]).value;
                       && classify(ModelPath(entry.modelName), features).Ok?
                       && (outcome.value.predicted == Republican <==> classify(ModelPath(entry.modelName), features).value == 1)
                       && (outcome.value.predicted == Democrat <==> classify(ModelPath(entry.modelName), features).value != 1)
                       && outcome.value.features == entry.columns
                       && loadMatrix(MatrixPath(entry.modelName)) == Ok(outcome.value.matrix)
  {
  }
}
