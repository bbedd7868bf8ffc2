/** The function-call output parsers
    (`langchain/src/output_parsers/openai_functions.ts`): the checks on the
    first generation, the `argsOnly` switch, and the JSON and keyed
    variants. `JSON.parse` is a function handed in by the caller. */
module FunctionParsers {
  import opened Wrappers
  import opened Strings
  import opened Json

  /** `function_call` of a chat message; either part may be missing. */
  datatype FunctionCall = FunctionCall(name: Option<string>, arguments: Option<string>)

  /** A chat message and the function call among its `additional_kwargs`. */
  datatype ChatMessage = ChatMessage(content: string, functionCall: Option<FunctionCall>)

  /** A generation; a chat generation also carries a message. */
  datatype Generation = Generation(text: string, message: Option<ChatMessage>)

  /** The errors the parsers throw. The messages embed
      `JSON.stringify(generations)`, so each error carries the
      generations. */
  datatype ParseError =
    | NoGeneration                                  // `generations[0]` is undefined
    | NoMessage(generations: seq<Generation>)
    | NoFunctionCall(generations: seq<Generation>)
    | NoArguments(generations: seq<Generation>)
    | NoResult(generations: seq<Generation>)
    | SyntaxError(text: string)                     // `JSON.parse` rejected the text
    | TypeError                                     // a property of null, or assigned on a non-object

  /** `JSON.parse`: the value a text denotes, or None when it throws. */
  type JsonParser = string -> Option<Json>

  /** The function call as an object, with its members in the order the
      API sends them; `JSON.stringify` leaves out an undefined member. */
  function FunctionCallJson(fc: FunctionCall): (v: Json)
    ensures v.JObject?
    ensures fc.arguments.Some? ==> Get(v.members, "arguments") == Some(JString(fc.arguments.value))
  {
    var name := if fc.name.Some? then [Member("name", JString(fc.name.value))] else [];
    var arguments := if fc.arguments.Some? then [Member("arguments", JString(fc.arguments.value))] else [];
    assert fc.arguments.Some? ==> name + arguments == name + [Member("arguments", JString(fc.arguments.value))];
    JObject(name + arguments)
  }

  /** `OutputFunctionsParser` */
  datatype OutputFunctionsParser = OutputFunctionsParser(argsOnly: bool)

  /** `new OutputFunctionsParser(config)`: `argsOnly` is true unless the
      configuration says otherwise. */
  function NewOutputFunctionsParser(argsOnly: Option<bool>): (p: OutputFunctionsParser)
    ensures argsOnly.None? ==> p.argsOnly
    ensures argsOnly.Some? ==> p.argsOnly == argsOnly.value
  {
    OutputFunctionsParser(argsOnly.GetOr(true))
  }

  /** `OutputFunctionsParser.parseResult`: the checks run on the first
      generation only, in this order: a message, a function call, non-empty
      arguments. */
  function ParseFunctionResult(p: OutputFunctionsParser, generations: seq<Generation>): (r: Result<string, ParseError>)
    ensures generations == [] ==> r == Err(NoGeneration)
    ensures generations != [] && generations[0].message.None? ==> r == Err(NoMessage(generations))
    ensures generations != [] && generations[0].message.Some? && generations[0].message.value.functionCall.None?
            ==> r == Err(NoFunctionCall(generations))
    ensures r.Ok? ==>
      && generations != [] && generations[0].message.Some? && generations[0].message.value.functionCall.Some?
      && var fc := generations[0].message.value.functionCall.value;
      && fc.arguments.Some? && fc.arguments.value != ""
      && r.value == (if p.argsOnly then fc.arguments.value else Stringify(FunctionCallJson(fc)))
    ensures (r.Err? && generations != [] && generations[0].message.Some?
             && generations[0].message.value.functionCall.Some?) ==> r == Err(NoArguments(generations))
    ensures r.Ok? <==>
      && generations != [] && generations[0].message.Some? && generations[0].message.value.functionCall.Some?
      && generations[0].message.value.functionCall.value.arguments.Some?
      && generations[0].message.value.functionCall.value.arguments.value != ""
  {
    if generations == [] then Err(NoGeneration)
    else match generations[0].message
      case None => Err(NoMessage(generations))
      case Some(message) =>
        match message.functionCall
        case None => Err(NoFunctionCall(generations))
        case Some(fc) =>
          if fc.arguments.None? || fc.arguments.value == "" then Err(NoArguments(generations))
          else if p.argsOnly then Ok(fc.arguments.value)
          else Ok(Stringify(FunctionCallJson(fc)))
  }

  /** Generations after the first play no part: the outcome is the same up
      to the generations an error carries. */
  lemma OnlyFirstGenerationCounts(p: OutputFunctionsParser, first: Generation, rest1: seq<Generation>, rest2: seq<Generation>)
    ensures ParseFunctionResult(p, [first] + rest1).Ok? <==> ParseFunctionResult(p, [first] + rest2).Ok?
    ensures ParseFunctionResult(p, [first] + rest1).Ok? ==>
              ParseFunctionResult(p, [first] + rest1).value == ParseFunctionResult(p, [first] + rest2).value
  {
    assert ([first] + rest1)[0] == first && ([first] + rest2)[0] == first;
  }

  /** A successful result is never empty, so the `!result` check of
      `JsonOutputFunctionsParser` never fires. */
  lemma FunctionResultNonEmpty(p: OutputFunctionsParser, generations: seq<Generation>)
    requires ParseFunctionResult(p, generations).Ok?
    ensures ParseFunctionResult(p, generations).value != ""
  {
  }

  /** `JsonOutputFunctionsParser`: `argsOnly` and the inner parser are built
      from the same configuration. */
  datatype JsonOutputFunctionsParser = JsonOutputFunctionsParser(argsOnly: bool, outputParser: OutputFunctionsParser)

  function NewJsonOutputFunctionsParser(argsOnly: Option<bool>): (p: JsonOutputFunctionsParser)
    ensures p.argsOnly == p.outputParser.argsOnly == argsOnly.GetOr(true)
  {
    JsonOutputFunctionsParser(argsOnly.GetOr(true), NewOutputFunctionsParser(argsOnly))
  }

  /** `String(v)` for a defined value: an array joins its elements with
      commas, null elements left empty. */
  function ValueText(v: Json): string
    decreases v
  {
    match v
    case JString(s) => s
    case JArray(items) =>
      Join(seq(|items|, i requires 0 <= i < |items| =>
                 assert items[i] < v;
                 if items[i].JNull? then "" else ValueText(items[i])), ",")
    case JObject(_) => "[object Object]"
    case _ => Stringify(v)
  }

  /** `String(v)`, the text `JSON.parse` is then given. */
  function JsText(v: Option<Json>): string {
    match v
    case None => "undefined"
    case Some(value) => ValueText(value)
  }

  /** `JsonOutputFunctionsParser.parseResult`: the inner result parsed as
      JSON; without `argsOnly`, its `arguments` member is then replaced, in
      place, by the value its text denotes. */
  function ParseJsonResult(p: JsonOutputFunctionsParser, parse: JsonParser, generations: seq<Generation>): (r: Result<Json, ParseError>)
    ensures ParseFunctionResult(p.outputParser, generations).Err? ==> r == Err(ParseFunctionResult(p.outputParser, generations).error)
    ensures ParseFunctionResult(p.outputParser, generations).Ok? && p.argsOnly ==>
      var text := ParseFunctionResult(p.outputParser, generations).value;
      r == if parse(text).Some? then Ok(parse(text).value) else Err(SyntaxError(text))
  {
    match ParseFunctionResult(p.outputParser, generations)
    case Err(e) => Err(e)
    case Ok(result) =>
      if result == "" then Err(NoResult(generations))
      else match parse(result)
        case None => Err(SyntaxError(result))
        case Some(parsed) =>
          if p.argsOnly then Ok(parsed)
          else if parsed.JObject? then
            var argumentsText := JsText(Get(parsed.members, "arguments"));
            match parse(argumentsText)
            case None => Err(SyntaxError(argumentsText))
            case Some(arguments) => Ok(JObject(Put(parsed.members, "arguments", arguments)))
          else if parsed.JNull? then Err(TypeError)
          else
            var argumentsText := JsText(None);
            if parse(argumentsText).None? then Err(SyntaxError(argumentsText)) else Err(TypeError)
  }

  /** Without `argsOnly`, and with a `JSON.parse` that reads back what
      `JSON.stringify` writes, the result is the function call with its
      arguments text replaced by the value it denotes; the name stays. */
  lemma FullFunctionCallParsed(p: JsonOutputFunctionsParser, parse: JsonParser, generations: seq<Generation>, fc: FunctionCall, arguments: Json)
    requires !p.argsOnly && !p.outputParser.argsOnly
    requires generations != [] && generations[0].message.Some? && generations[0].message.value.functionCall == Some(fc)
    requires fc.arguments.Some? && fc.arguments.value != ""
    requires parse(Stringify(FunctionCallJson(fc))) == Some(FunctionCallJson(fc))
    requires parse(fc.arguments.value) == Some(arguments)
    ensures ParseJsonResult(p, parse, generations).Ok?
    ensures var v := ParseJsonResult(p, parse, generations).value;
      && v.JObject?
      && Get(v.members, "arguments") == Some(arguments)
      && Get(v.members, "name") == Get(FunctionCallJson(fc).members, "name")
  {
    var members := FunctionCallJson(fc).members;
    assert ParseFunctionResult(p.outputParser, generations) == Ok(Stringify(FunctionCallJson(fc)));
    assert Get(members, "arguments") == Some(JString(fc.arguments.value));
  }

  /** Without `argsOnly`, a parsed call that is not an object fails: reading
      `arguments` of `null` raises a `TypeError`, and any other value has no
      `arguments`, so `JSON.parse(undefined)` rejects the text "undefined"
      before anything is assigned. */
  lemma NonObjectCallRejected(p: JsonOutputFunctionsParser, parse: JsonParser, generations: seq<Generation>, parsed: Json)
    requires !p.argsOnly && parse("undefined").None?
    requires ParseFunctionResult(p.outputParser, generations).Ok?
    requires parse(ParseFunctionResult(p.outputParser, generations).value) == Some(parsed)
    requires !parsed.JObject?
    ensures ParseJsonResult(p, parse, generations) == Err(if parsed.JNull? then TypeError else SyntaxError("undefined"))
  {
    FunctionResultNonEmpty(p.outputParser, generations);
  }

  /** `JsonKeyOutputFunctionsParser`: its inner parser is always the
      default `JsonOutputFunctionsParser`, which has `argsOnly` set. */
  datatype JsonKeyOutputFunctionsParser = JsonKeyOutputFunctionsParser(attrName: string, outputParser: JsonOutputFunctionsParser)

  function NewJsonKeyOutputFunctionsParser(attrName: string): (p: JsonKeyOutputFunctionsParser)
    ensures p.attrName == attrName
    ensures p.outputParser.argsOnly && p.outputParser.outputParser.argsOnly
  {
    JsonKeyOutputFunctionsParser(attrName, NewJsonOutputFunctionsParser(None))
  }

  /** `JsonKeyOutputFunctionsParser.parseResult`: the field `attrName` of the
      parsed arguments, `undefined` (None) when there is none; reading a
      property of `null` throws. */
  function ParseKeyResult(p: JsonKeyOutputFunctionsParser, parse: JsonParser, generations: seq<Generation>): (r: Result<Option<Json>, ParseError>)
    ensures var inner := ParseJsonResult(p.outputParser, parse, generations);
      && (r.Err? <==> inner.Err? || inner.value.JNull?)
      && (inner.Err? ==> r == Err(inner.error))
      && (inner.Ok? && inner.value.JNull? ==> r == Err(TypeError))
      && (r.Ok? ==> r.value == Child(inner.value, p.attrName))
  {
    match ParseJsonResult(p.outputParser, parse, generations)
    case Err(e) => Err(e)
    case Ok(result) => if result.JNull? then Err(TypeError) else Ok(Child(result, p.attrName))
  }

  /** The keyed parser returns the named field of the arguments object, and
      a missing field gives `undefined` rather than an error. */
  lemma KeyedFieldOfArguments(attrName: string, parse: JsonParser, generations: seq<Generation>, fc: FunctionCall, members: seq<Member>)
    requires generations != [] && generations[0].message.Some? && generations[0].message.value.functionCall == Some(fc)
    requires fc.arguments.Some? && fc.arguments.value != ""
    requires parse(fc.arguments.value) == Some(JObject(members))
    ensures ParseKeyResult(NewJsonKeyOutputFunctionsParser(attrName), parse, generations) == Ok(Get(members, attrName))
    ensures attrName !in Keys(members) ==> ParseKeyResult(NewJsonKeyOutputFunctionsParser(attrName), parse, generations) == Ok(None)
  {
    var p := NewJsonKeyOutputFunctionsParser(attrName);
    assert ParseFunctionResult(p.outputParser.outputParser, generations) == Ok(fc.arguments.value);
  }
}
