/** Dictionaries that `predict` and `payload` build field by field: the party
    label, the result packet merged with the comparison matrix
    (app.py:148-165), and the scoring request body (app.py:43-54). */
module Response {

  /** A JSON value; numbers are kept as their text. */
  datatype Json =
    | JNull
    | JBool(b: bool)
    | JNumber(text: string)
    | JString(s: string)
    | JArray(items: seq<Json>)
    | JObject(fields: map<string, Json>)

  function JStrings(xs: seq<string>): (r: seq<Json>)
    ensures |r| == |xs|
    ensures forall i :: 0 <= i < |xs| ==> r[i] == JString(xs[i])
  {
    if xs == [] then [] else [JString(xs[0])] + JStrings(xs[1..])
  }

  const Republican := "Republican"
  const Democrat := "Democrat"

  /** Lines 148-150: class 1 is "Republican"; every other class id, including
      ids above 1, falls through to "Democrat". */
  method PartyLabel(predictedClass: int) returns (predicted: string)
    ensures predicted == Republican <==> predictedClass == 1
    ensures predicted == Democrat <==> predictedClass != 1
  {
    predicted := Democrat;
    if predictedClass == 1 {
      predicted := Republican;
    }
  }

  const PacketKeys := {"handle", "algoname", "predicted", "features"}

  /** `p` is the packet for these fields after `packet.update(matrix)`: it has
      the four packet keys and every matrix key; a matrix key wins over a
      packet key of the same name; the other packet keys keep their values. */
  predicate IsPacket(p: map<string, Json>, handle: string, algoName: string, predicted: string,
                     features: seq<string>, matrix: map<string, Json>)
  {
    && p.Keys == PacketKeys + matrix.Keys
    && (forall k :: k in matrix ==> p[k] == matrix[k])
    && ("handle" !in matrix ==> p["handle"] == JString(handle))
    && ("algoname" !in matrix ==> p["algoname"] == JString(algoName))
    && ("predicted" !in matrix ==> p["predicted"] == JString(predicted))
    && ("features" !in matrix ==> p["features"] == JArray(JStrings(features)))
  }

  /** Lines 155-165: four successive assignments, then the in-place update
      with the comparison matrix. */
  method AssemblePacket(handle: string, algoName: string, predicted: string,
                        features: seq<string>, matrix: map<string, Json>)
    returns (packet: map<string, Json>)
    ensures IsPacket(packet, handle, algoName, predicted, features, matrix)
  {
    packet := map[];
    packet := packet["handle" := JString(handle)];
    packet := packet["algoname" := JString(algoName)];
    packet := packet["predicted" := JString(predicted)];
    packet := packet["features" := JArray(JStrings(features))];
    packet := packet + matrix;
  }

  /** A packet is determined by its fields: the update has one outcome. */
  lemma PacketUnique(p1: map<string, Json>, p2: map<string, Json>, handle: string, algoName: string,
                     predicted: string, features: seq<string>, matrix: map<string, Json>)
    requires IsPacket(p1, handle, algoName, predicted, features, matrix)
    requires IsPacket(p2, handle, algoName, predicted, features, matrix)
    ensures p1 == p2
  {
  }

  // ---------------------------------------------------------------------------
  // Scoring request body
  // ---------------------------------------------------------------------------

  /** The fields of the request body that do not depend on the text. */
  const StaticPayload: map<string, Json> := map[
    "content_tags" := JArray([JString("string")]),
    "content_handle" := JString("string"),
    "language" := JString("english"),
    "content_source" := JNumber("4"),
    "content_date" := JString("2018-12-25T00:46:05.119779"),
    "recipient_id" := JString("string")
  ]

  /** `payload(text)`: the static fields plus `language_content`, the only
      field that carries the text, and it carries it verbatim. */
  method BuildPayload(text: string) returns (payload: map<string, Json>)
    ensures payload.Keys == StaticPayload.Keys + {"language_content"}
    ensures payload["language_content"] == JString(text)
    ensures forall k :: k in StaticPayload ==> payload[k] == StaticPayload[k]
  {
    payload := map[];
    var tags: seq<Json> := [];
    tags := tags + [JString("string")];
    payload := payload["content_tags" := JArray(tags)];
    payload := payload["content_handle" := JString("string")];
    payload := payload["language" := JString("english")];
    payload := payload["content_source" := JNumber("4")];
    payload := payload["content_date" := JString("2018-12-25T00:46:05.119779")];
    payload := payload["recipient_id" := JString("string")];
    payload := payload["language_content" := JString(text)];
  }
}
