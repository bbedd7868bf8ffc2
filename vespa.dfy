/** `VespaRetriever` (`langchain/src/retrievers/vespa.ts`): the request body
    for a query and the documents read from Vespa's answer. */
module Vespa {
  import opened Wrappers
  import opened Json

  /** The retriever's configuration after construction. */
  datatype VespaRetriever = VespaRetriever(url: string, queryBody: seq<Member>, contentField: string)

  /** `new VespaRetriever(fields)`: the search path is added to the
      configured URL. */
  function NewVespaRetriever(url: string, queryBody: seq<Member>, contentField: string): (r: VespaRetriever)
    ensures r.url == url + "/search/?"
    ensures r.queryBody == queryBody && r.contentField == contentField
  {
    VespaRetriever(url + "/search/?", queryBody, contentField)
  }

  /** `createJsonBody(query)`: `{...query_body, query}`. */
  function CreateJsonBody(r: VespaRetriever, query: string): (body: seq<Member>)
    ensures Get(body, "query") == Some(JString(query))
    ensures forall k :: k != "query" ==> Get(body, k) == Get(r.queryBody, k)
  {
    Put(r.queryBody, "query", JString(query))
  }

  /** The body keeps the key order of `query_body`; `query` is added last
      unless `query_body` already has it, in which case it stays in place
      with the new value. */
  lemma CreateJsonBodyKeys(r: VespaRetriever, query: string)
    ensures Keys(CreateJsonBody(r, query))
            == if "query" in Keys(r.queryBody) then Keys(r.queryBody) else Keys(r.queryBody) + ["query"]
  {
    PutKeys(r.queryBody, "query", JString(query));
  }

  /** `new Document({pageContent, metadata: {id}})`; either value may be
      `undefined` (None). */
  datatype Document = Document(pageContent: Option<Json>, id: Option<Json>)

  /** The property-access failure `processJsonResponse` can throw. */
  datatype ResponseError = TypeError

  /** A child of `root.children`, as a document: `fields` must be present
      (reading a property of `undefined` or `null` throws). */
  function ChildDocument(child: Json, contentField: string): (r: Result<Document, ResponseError>)
    ensures r.Ok? <==> Child(child, "fields").Some? && !Child(child, "fields").value.JNull?
    ensures r.Ok? ==> r.value == Document(Child(Child(child, "fields").value, contentField), Child(child, "id"))
  {
    match Child(child, "fields")
    case None => Err(TypeError)
    case Some(fields) =>
      if fields.JNull? then Err(TypeError)
      else Ok(Document(Child(fields, contentField), Child(child, "id")))
  }

  /** `children.map(...)`: stops at the first child that throws. */
  function MapChildren(children: seq<Json>, contentField: string): (r: Result<seq<Document>, ResponseError>)
    ensures r.Ok? <==> forall i :: 0 <= i < |children| ==> ChildDocument(children[i], contentField).Ok?
    ensures r.Ok? ==> |r.value| == |children|
    ensures r.Ok? ==> forall i :: 0 <= i < |children| ==> r.value[i] == ChildDocument(children[i], contentField).value
    decreases |children|
  {
    if children == [] then Ok([])
    else match ChildDocument(children[0], contentField)
      case Err(e) => Err(e)
      case Ok(d) =>
        match MapChildren(children[1..], contentField)
        case Err(e) => Err(e)
        case Ok(ds) => Ok([d] + ds)
  }

  /** `processJsonResponse(json)`: one document per element of
      `json.root.children`, in order. */
  function ProcessJsonResponse(r: VespaRetriever, json: Json): (docs: Result<seq<Document>, ResponseError>)
    ensures docs.Ok? ==>
      && Child(json, "root").Some?
      && Child(Child(json, "root").value, "children").Some?
      && Child(Child(json, "root").value, "children").value.JArray?
      && |docs.value| == |Child(Child(json, "root").value, "children").value.items|
  {
    match Child(json, "root")
    case None => Err(TypeError)
    case Some(root) =>
      match Child(root, "children")
      case Some(JArray(children)) => MapChildren(children, r.contentField)
      case _ => Err(TypeError)
  }

  /** Each document takes its text from the configured content field of
      the child's `fields`, and its metadata is the child's `id` alone;
      there is one document per child, in the children's order. */
  lemma ResponseDocuments(r: VespaRetriever, json: Json, children: seq<Json>)
    requires Child(json, "root").Some? && Child(Child(json, "root").value, "children") == Some(JArray(children))
    requires forall i :: 0 <= i < |children| ==> Child(children[i], "fields").Some? && Child(children[i], "fields").value.JObject?
    ensures ProcessJsonResponse(r, json).Ok?
    ensures |ProcessJsonResponse(r, json).value| == |children|
    ensures forall i :: 0 <= i < |children| ==>
      ProcessJsonResponse(r, json).value[i]
        == Document(Get(Child(children[i], "fields").value.members, r.contentField), Child(children[i], "id"))
  {
  }

  /** A response without a `root.children` array is a `TypeError`. */
  lemma ResponseWithoutChildren(r: VespaRetriever, json: Json)
    requires Child(json, "root").None? || !Child(Child(json, "root").value, "children").Some?
             || !Child(Child(json, "root").value, "children").value.JArray?
    ensures ProcessJsonResponse(r, json) == Err(TypeError)
  {
  }
}
