/** `GoogleVertexAIEmbeddings` (`langchain/src/embeddings/googlevertexai.ts`):
    documents are sent in chunks of at most five instances, one request per
    chunk, and the embeddings of all responses are concatenated in order.
    The connection is a function handed in by the caller. */
module VertexEmbeddings {
  import opened Wrappers

  type Vector = seq<real>

  /** `{content}`, one instance per document. */
  datatype Instance = Instance(content: string)

  /** One prediction of a response: `embeddings.values`. */
  datatype Prediction = Prediction(values: Vector)

  /** A response of the connection: `data` and `data.predictions` may each
      be missing. */
  datatype Response = Response(data: Option<ResponseData>)
  datatype ResponseData = ResponseData(predictions: Option<seq<Prediction>>)

  /** `connection.request(instances, {}, {})` */
  type Connection = seq<Instance> -> Response

  /** Vertex AI accepts at most five instances per prediction request. */
  const MaxInstancesPerRequest := 5

  /** `chunkArray(xs, size)`: consecutive groups of `size` elements, the last
      one possibly shorter. */
  function ChunkArray<T>(xs: seq<T>, size: nat): (chunks: seq<seq<T>>)
    requires size > 0
    ensures forall c :: 0 <= c < |chunks| ==> 1 <= |chunks[c]| <= size
    decreases |xs|
  {
    if xs == [] then []
    else if |xs| <= size then [xs]
    else [xs[..size]] + ChunkArray(xs[size..], size)
  }

  /** `chunks.flat()` */
  function Flatten<T>(chunks: seq<seq<T>>): seq<T> {
    if chunks == [] then [] else chunks[0] + Flatten(chunks[1..])
  }

  /** Chunking keeps every element, in order. */
  lemma {:induction false} ChunkArrayKeepsOrder<T>(xs: seq<T>, size: nat)
    requires size > 0
    ensures Flatten(ChunkArray(xs, size)) == xs
    decreases |xs|
  {
    if |xs| > size {
      ChunkArrayKeepsOrder(xs[size..], size);
      var chunks := ChunkArray(xs, size);
      assert chunks[0] == xs[..size] && chunks[1..] == ChunkArray(xs[size..], size);
      assert xs == xs[..size] + xs[size..];
    }
  }

  /** In chunks of five, all chunks but the last are full, and there are
      `ceil(n / 5)` of them. */
  lemma {:induction false} ChunksOfFiveCount<T>(xs: seq<T>)
    ensures |ChunkArray(xs, 5)| == (|xs| + 4) / 5
    ensures forall c :: 0 <= c < |ChunkArray(xs, 5)| - 1 ==> |ChunkArray(xs, 5)[c]| == 5
    decreases |xs|
  {
    if |xs| > 5 {
      ChunksOfFiveCount(xs[5..]);
      var chunks := ChunkArray(xs, 5);
      assert chunks[1..] == ChunkArray(xs[5..], 5);
      assert forall c :: 1 <= c < |chunks| ==> chunks[c] == chunks[1..][c - 1];
    }
  }

  /** Element `i` of the input sits at place `i % 5` of chunk `i / 5`. */
  lemma {:induction false} ChunksOfFivePosition<T>(xs: seq<T>, i: nat)
    requires i < |xs|
    ensures i / 5 < |ChunkArray(xs, 5)|
    ensures i % 5 < |ChunkArray(xs, 5)[i / 5]|
    ensures ChunkArray(xs, 5)[i / 5][i % 5] == xs[i]
    decreases |xs|
  {
    var chunks := ChunkArray(xs, 5);
    if |xs| > 5 && i >= 5 {
      ChunksOfFivePosition(xs[5..], i - 5);
      assert chunks == [xs[..5]] + ChunkArray(xs[5..], 5);
      assert (i - 5) / 5 == i / 5 - 1 && (i - 5) % 5 == i % 5;
      assert chunks[i / 5] == ChunkArray(xs[5..], 5)[(i - 5) / 5];
      assert xs[5..][i - 5] == xs[i];
    } else if |xs| > 5 {
      assert i / 5 == 0 && i % 5 == i;
      assert chunks[0] == xs[..5];
    } else {
      assert i / 5 == 0 && i % 5 == i;
      assert chunks == [xs];
    }
  }

  /** Twelve documents go out in chunks of five, five and two. */
  lemma TwelveDocumentsInThreeRequests(xs: seq<Instance>)
    requires |xs| == 12
    ensures var chunks := ChunkArray(xs, MaxInstancesPerRequest);
      |chunks| == 3 && |chunks[0]| == 5 && |chunks[1]| == 5 && |chunks[2]| == 2
  {
    var rest := xs[5..];
    assert ChunkArray(xs, 5) == [xs[..5]] + ChunkArray(rest, 5);
    assert ChunkArray(rest, 5) == [rest[..5]] + ChunkArray(rest[5..], 5);
    assert ChunkArray(rest[5..], 5) == [rest[5..]];
  }

  function Instances(documents: seq<string>): (instances: seq<Instance>)
    ensures |instances| == |documents|
    ensures forall i :: 0 <= i < |documents| ==> instances[i] == Instance(documents[i])
  {
    seq(|documents|, i requires 0 <= i < |documents| => Instance(documents[i]))
  }

  /** The requests `embedDocuments` issues, in order. */
  function Requests(documents: seq<string>): seq<seq<Instance>> {
    ChunkArray(Instances(documents), MaxInstancesPerRequest)
  }

  /** `response.data?.predictions?.map(r => r.embeddings.values) ?? []` */
  function ResponseVectors(response: Response): (vectors: seq<Vector>)
    ensures response.data.None? || response.data.value.predictions.None? ==> vectors == []
    ensures response.data.Some? && response.data.value.predictions.Some? ==>
      var ps := response.data.value.predictions.value;
      |vectors| == |ps| && forall k :: 0 <= k < |ps| ==> vectors[k] == ps[k].values
  {
    match response.data
    case None => []
    case Some(data) =>
      match data.predictions
      case None => []
      case Some(ps) => seq(|ps|, k requires 0 <= k < |ps| => ps[k].values)
  }

  /** The vectors of each chunk's response, in chunk order. */
  function ChunkVectors(connection: Connection, chunks: seq<seq<Instance>>): (perChunk: seq<seq<Vector>>)
    ensures |perChunk| == |chunks|
    ensures forall c :: 0 <= c < |chunks| ==> perChunk[c] == ResponseVectors(connection(chunks[c]))
  {
    seq(|chunks|, c requires 0 <= c < |chunks| => ResponseVectors(connection(chunks[c])))
  }

  /** `embedDocuments(documents)` */
  function EmbedDocuments(connection: Connection, documents: seq<string>): (vectors: seq<Vector>)
    ensures documents == [] ==> vectors == []
  {
    Flatten(ChunkVectors(connection, Requests(documents)))
  }

  /** `embedQuery(document)`: the first vector for the one-document list,
      `undefined` (None) when the response has none. */
  function EmbedQuery(connection: Connection, document: string): (r: Option<Vector>)
    ensures r.Some? <==> EmbedDocuments(connection, [document]) != []
    ensures r.Some? ==> r.value == EmbedDocuments(connection, [document])[0]
  {
    var vectors := EmbedDocuments(connection, [document]);
    if vectors == [] then None else Some(vectors[0])
  }

  /** One request per chunk: `ceil(n / 5)` requests for `n` documents, which
      between them carry every document once, in order. */
  lemma RequestCount(documents: seq<string>)
    ensures |Requests(documents)| == (|documents| + 4) / 5
    ensures Flatten(Requests(documents)) == Instances(documents)
    ensures forall c :: 0 <= c < |Requests(documents)| ==> 1 <= |Requests(documents)[c]| <= 5
  {
    ChunksOfFiveCount(Instances(documents));
    ChunkArrayKeepsOrder(Instances(documents), MaxInstancesPerRequest);
  }

  /** A connection that answers every request with one prediction per
      instance. */
  predicate OnePredictionPerInstance(connection: Connection, chunks: seq<seq<Instance>>) {
    forall c :: 0 <= c < |chunks| ==> |ResponseVectors(connection(chunks[c]))| == |chunks[c]|
  }

  lemma {:induction false} FlattenSameShape<T, U>(xs: seq<seq<T>>, ys: seq<seq<U>>)
    requires |xs| == |ys| && forall c :: 0 <= c < |xs| ==> |xs[c]| == |ys[c]|
    ensures |Flatten(xs)| == |Flatten(ys)|
    decreases |xs|
  {
    if xs != [] {
      FlattenSameShape(xs[1..], ys[1..]);
    }
  }

  /** Where every part but the last holds five elements, element `i` of the
      flattening is element `i % 5` of part `i / 5`. */
  lemma {:induction false} FlattenPosition<T>(parts: seq<seq<T>>, i: nat)
    requires forall c :: 0 <= c < |parts| - 1 ==> |parts[c]| == 5
    requires forall c :: 0 <= c < |parts| ==> |parts[c]| <= 5
    requires i < |Flatten(parts)|
    ensures i / 5 < |parts| && i % 5 < |parts[i / 5]|
    ensures Flatten(parts)[i] == parts[i / 5][i % 5]
    decreases |parts|
  {
    var rest := parts[1..];
    assert Flatten(parts) == parts[0] + Flatten(rest);
    if i >= |parts[0]| {
      assert |parts[0]| == 5;
      assert forall c :: 0 <= c < |rest| ==> rest[c] == parts[c + 1];
      FlattenPosition(rest, i - 5);
    } else if |parts| > 1 {
      assert |parts[0]| == 5;
    }
  }

  /** When each response has one prediction per instance, there is one
      vector per document, and vector `i` is the one predicted for
      document `i`, the `i % 5`-th of request `i / 5`. */
  lemma VectorsMatchDocuments(connection: Connection, documents: seq<string>, i: nat)
    requires OnePredictionPerInstance(connection, Requests(documents))
    requires i < |documents|
    ensures |EmbedDocuments(connection, documents)| == |documents|
    ensures i / 5 < |Requests(documents)| && i % 5 < |Requests(documents)[i / 5]|
    ensures Requests(documents)[i / 5][i % 5] == Instance(documents[i])
    ensures EmbedDocuments(connection, documents)[i] == ResponseVectors(connection(Requests(documents)[i / 5]))[i % 5]
  {
    var chunks := Requests(documents);
    var perChunk := ChunkVectors(connection, chunks);
    ChunksOfFiveCount(Instances(documents));
    ChunkArrayKeepsOrder(Instances(documents), MaxInstancesPerRequest);
    ChunksOfFivePosition(Instances(documents), i);
    FlattenSameShape(perChunk, chunks);
    FlattenPosition(perChunk, i);
  }

  /** `embedQuery(d)` sends `d` alone and answers with the first vector of
      that response, `undefined` when the response has none. */
  lemma EmbedQuerySendsOneInstance(connection: Connection, document: string)
    ensures Requests([document]) == [[Instance(document)]]
    ensures var vectors := ResponseVectors(connection([Instance(document)]));
      EmbedQuery(connection, document) == if vectors == [] then None else Some(vectors[0])
  {
    assert Instances([document]) == [Instance(document)];
    var perChunk := ChunkVectors(connection, [[Instance(document)]]);
    assert Flatten(perChunk) == perChunk[0] + Flatten(perChunk[1..]);
  }
}
