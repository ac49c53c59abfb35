# LeftRightCenter prediction core, modelled in Dafny

This project models the pure layer of `app.py`, the Flask service that guesses a
Twitter user's party. The model covers:

- how each tweet's text is cleaned (`cleanText`);
- how the cleaned tweets are joined into one text for the linguistic-scoring
  API, and the request body for that API (`payload`);
- the table of six neural-network algorithms (`algoNameMap`);
- how a score map is selected and projected onto an algorithm's columns
  (`predictions`);
- the label, paths and result packet that `predict` builds.

The feed API, the scoring API, the Keras model and the matrix files are
parameters of the model, not part of it.

Modules, one per component:

- `Results` (`results.dfy`): `Option`, `Result` and `Error`. `Error` has one
  constructor per exception that the modelled code raises. A failing
  collaborator passes its own error through, for example `External`.
- `TextCleaner` (`text_cleaner.dfy`): the six cleaning steps as functions on
  strings, and what they guarantee.
- `Aggregate` (`aggregate.dfy`): the cleaned-text column and the loop that
  builds the aggregate text.
- `Algorithms` (`algorithms.dfy`): the algorithm table, the loop-free method
  that fills it, and the model and matrix paths.
- `Features` (`features.dfy`): score maps in insertion order (the column order
  of pandas 0.25 and later; keys are assumed distinct, as in a dict), Python tuple
  indexing, the pandas column projection, and feature selection.
- `Response` (`response.dfy`): the party label, the packet merged with the
  matrix dictionary, and the scoring request body.
- `Prediction` (`prediction.dfy`): the `/predict` handler as a method.
  - Its collaborators (`fetch`, `score`, `classify`, `loadMatrix`) are function
    parameters.
  - It is specified by `PredictOutcome`, a function that runs the same stages
    one failure at a time.

Three facts about the code that a reader might not expect:

- `cleanText` is not idempotent. `"R!T"` cleans to `"RT"`, and `"RT"` cleans
  to `""` (`TextCleaner.CleanTextNotIdempotent`).
- With no posts, line 138 raises `KeyError` before any text exists, because
  `pd.DataFrame([])` has no `full_text` column.
  `Aggregate.FormattedColumn` returns `MissingFrameColumn("full_text")` for an
  empty post list. The loop itself still turns an empty list into `""`
  (`Aggregate.AggregateText`).
- Line 83 never removes anything, because line 81 has already deleted every
  `:` (`TextCleaner.LabelStepIsNoOp`).

## Model

| member | source | states |
|---|---|---|
| `TextCleaner.ReplaceAll` | app.py:78-80 | `str.replace` never lengthens a text when the replacement is no longer than the pattern, and brings in no character except those of the text and of the replacement |
| `TextCleaner.ReplaceAllCopiesPrefix` | app.py:78-80 | a stretch in which no occurrence of the pattern starts is copied verbatim, and the scan continues with the rest |
| `TextCleaner.ReplaceAllAtMatch` | app.py:78-80 | an occurrence at the scan position becomes the replacement, and the scan resumes right after it |
| `TextCleaner.ReplaceAllUnchangedIff` | app.py:78-80 | when the replacement is shorter than the pattern (true of all three calls), the text is unchanged if and only if the pattern does not occur in it |
| `TextCleaner.KeepAllowed` | app.py:81 | only ASCII letters, digits, space, newline and '.' survive; each of those keeps its number of occurrences; a text that already has only those characters is unchanged |
| `TextCleaner.KeepAllowedConcat` | app.py:81 | the surviving characters keep their order: the step distributes over concatenation |
| `TextCleaner.KeepAllowedCons` | app.py:81 | a character survives exactly when it is allowed |
| `TextCleaner.StripUrls` | app.py:82 | deleting each leftmost-greedy `http\S+` never lengthens the text and brings in no new character |
| `TextCleaner.StripUrlsCopiesPrefix` | app.py:82 | a stretch in which no `http\S+` match starts is copied verbatim, and the scan continues with the rest |
| `TextCleaner.StripUrlsAtMatch` | app.py:82 | `http` and the whole whitespace-free run after it are deleted, and the scan resumes at the whitespace that ends the run, or at the end |
| `TextCleaner.StripUrlsSplitAtSpace` | app.py:82 | whitespace is never deleted; the text on either side of it is cleaned independently, because a greedy `\S+` cannot cross it |
| `TextCleaner.StripUrlsUrlFree` | app.py:82 | after line 82, no `http` is followed by a non-whitespace character |
| `TextCleaner.StripUrlsIdentity` | app.py:82 | a text in which `http\S+` cannot match comes back unchanged |
| `TextCleaner.StripUrlsIdempotent` | app.py:82 | applying line 82 twice gives the same text as applying it once |
| `TextCleaner.StripLabels` | app.py:83 | deleting `\w+:\s?` matches never lengthens the text, brings in no new character, and leaves a text without ':' unchanged |
| `TextCleaner.StripLabelsCopiesPrefix` | app.py:83 | a stretch in which no `\w+:` match starts is copied verbatim, and the scan continues with the rest |
| `TextCleaner.StripLabelsAtLabel` | app.py:83 | a word, its ':' and at most one whitespace character after it are deleted, and the scan resumes right after them |
| `TextCleaner.CleanText` | app.py:77-84 | every character of a cleaned text is an ASCII letter, an ASCII digit, a space, a newline or '.', and the cleaned text is no longer than the input |
| `TextCleaner.LabelStepIsNoOp` | app.py:81-83 | no ':' is left after the first five steps, so the sixth step returns its input unchanged |
| `TextCleaner.CleanTextUrlFree` | app.py:77-84 | no `http` in a cleaned text is followed by a non-whitespace character |
| `TextCleaner.CleanTextNotIdempotent` | app.py:78-81 | cleaning twice can differ from cleaning once: `"R!T"` cleans to `"RT"`, and `"RT"` cleans to `""` |
| `Aggregate.FormattedColumn` | app.py:137-138 | a non-empty post list gives one cleaned text per post, in order; an empty list fails with the missing `full_text` column |
| `Aggregate.AggregateText` | app.py:139-141 | the loop's result is each cleaned text followed by '.', concatenated in input order; its length is the texts' total length plus their count; an empty list gives `""` |
| `Aggregate.JoinedSnoc` | app.py:141 | one more loop iteration appends the next text and a '.' to the aggregate |
| `Aggregate.JoinedLength` | app.py:139-141 | the aggregate's length is the texts' total length plus one per text |
| `Aggregate.JoinedConcat` | app.py:139-141 | aggregating two lists one after the other gives the aggregate of their concatenation |
| `Aggregate.JoinedAllowed` | app.py:141 | texts made only of allowed characters aggregate to such a text, since '.' is allowed |
| `Aggregate.ScoredTextAllowed` | app.py:138-141 | the text sent for scoring holds only ASCII letters, digits, spaces, newlines and '.' |
| `Algorithms.AlgoTable` | app.py:32-38 | the table has exactly the six algorithm names, and every entry's score index is 0, 1 or 2 |
| `Algorithms.ModelNamesDistinct` | app.py:33-38 | no two algorithms share a model name, so no two share a model file or a matrix file |
| `Algorithms.BuildAlgoTable` | app.py:32-38 | the six successive key assignments produce the table, and the table is well formed |
| `Algorithms.ModelPath` | app.py:114 | the model path is `models/` + name + `.h5`; the name can be recovered from it, so different names give different paths |
| `Algorithms.MatrixPath` | app.py:163 | the matrix path is `data/matrix/` + name + `_matrix.txt`; the name can be recovered from it |
| `Algorithms.ArtifactsMatch` | app.py:163 | for every table entry, the model file (line 114) and the matrix file (line 163) have the same base name: the entry's model name |
| `Features.Project` | app.py:107-108 | the projection succeeds exactly when every listed column exists; on success it has exactly those columns, in that order, with the map's values; otherwise it fails naming precisely the absent columns |
| `Features.Bundle.At` | app.py:103 | Python tuple indexing of the score triple: indices -3..2 succeed (negative ones count from the end), and any other index raises IndexError |
| `Features.SelectFeatures` | app.py:101-108 | selection fails with the lookup error if and only if the name is not in the table; the only other failure is an absent column; on success the name is in the table, and a non-empty column list is exactly the result's columns |
| `Features.SelectKnownAlgorithm` | app.py:101-108 | for every table entry, the index is 0, 1 or 2. Selection yields that score map whole when the entry lists no columns, and its projection otherwise |
| `Features.SelectBig5` | app.py:34 | the Big5 algorithm succeeds exactly when the raw map has all five Big Five columns. It then yields those five, in order, with the raw values |
| `Response.PartyLabel` | app.py:148-150 | the label is "Republican" if and only if the class id is 1; every other id, including ids above 1, gives "Democrat" |
| `Response.AssemblePacket` | app.py:155-165 | the packet has the four packet keys plus every matrix key. Matrix values overwrite same-named packet keys; the other packet keys keep handle, algoname, label and the column list |
| `Response.PacketUnique` | app.py:165 | the merged packet is fully determined by its fields and the matrix |
| `Response.BuildPayload` | app.py:43-54 | the request body has the six static fields with their fixed values plus `language_content`, which holds the text verbatim; no other field depends on the text |
| `Prediction.PredictOutcome` | app.py:131-165 | a request with a `handle` but no `algoname` fails on that field; a successful one echoes both form fields, names a table algorithm, reports that entry's column list as its features, and labels the user "Republican" or "Democrat" |
| `Prediction.Predict` | app.py:131-168 | the handler fails exactly when `PredictOutcome` fails, with the same error. Otherwise it returns a one-element list whose packet is the merge of the outcome's fields and matrix |
| `Prediction.MissingHandleFailsFirst` | app.py:133 | without a `handle` form field the request fails on that field, whatever the collaborators return |
| `Prediction.FeedFailureEndsRequest` | app.py:61-69 | a failing feed (an API error, or a post without a field) ends the request with that error before scoring |
| `Prediction.NoPostsFails` | app.py:136-138 | a feed that returns no posts makes the request fail at the `full_text` column lookup |
| `Prediction.UnknownAlgorithmFails` | app.py:146-147 | once scoring succeeds, an unknown algorithm name fails with the lookup error and no packet is built |
| `Prediction.SuccessfulOutcome` | app.py:146-165 | on success the name is in the table and its selected features reach the model. Class 1, and only 1, is "Republican"; features is the entry's column list; the matrix is read from the entry's matrix path |

## Left out

- `gettweets` (app.py:56-75): Tweepy pagination and its per-item `TweepError` handling are I/O. The posts, or the failure that ends the request, reach the model as the `fetch` parameter's `Result`. Those failures are a `TweepError` from `user_timeline` (app.py:61, outside the `try`) and a `KeyError` for a post that lacks a field (app.py:67-69, not caught by app.py:72).
- `sendLIWC` (app.py:86-98): the HTTP POST and the JSON decoding of the response are I/O. The score triple, or the failure, reaches the model as the `score` parameter's result. The body it posts is modelled by `Response.BuildPayload`.
- `load_model` and `predict_classes` (app.py:116-121): foreign Keras calls and floating-point inference. The `classify` parameter stands for loading the model at the given path and running it on the feature row.
- The `graph` and `model` globals and `K.get_session()` (app.py:27-28, 116, 143-144): process-wide mutable state with no effect on the result of a single request.
- `json.load(open(matrix_path))` (app.py:164): file I/O. The `loadMatrix` parameter stands for it.
- The Flask routes `home`, `dnn` and `buzzwordmap`, `render_template`, `jsonify`, and the `print` logging (app.py:123-184): web framework and console output.
- Score values are opaque (a type parameter). Pandas' numeric conversion of the feature row is not modelled.
- The aggregate text may end in `http.`, and that pair is not URL-free. The URL guarantee is stated for each cleaned tweet, not for the joined text.
- TextCleaner.StripLabels: treats only ASCII letters, digits and '_' as `\w`, although Python's `\w` also matches other Unicode letters and digits. `CleanText` is unaffected: line 81 leaves only ASCII before line 83 runs.
- TextCleaner.ReplaceAll: requires a non-empty pattern. Python's `str.replace` also accepts an empty pattern, but the source never passes one.
