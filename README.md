# Deterministic cores of langchainjs tools, chains and parsers

This project models, in Dafny, the deterministic logic in seven langchainjs
source files:

- `JsonSpec`: `getKeys`, `getValue` and the two JSON tools that turn errors into text. JSON pointers follow RFC 6901.
- `ConstitutionalChain`: the critique-and-revise loop, `_parseCritique`, `getPrinciples` and the `fromLLM` default.
- `GenerativeAgent`: the self-summary cache and its refresh period, the `REACT:` / `SAY:` / `GOODBYE:` reply classification, `_cleanResponse` and `parseList`.
- `RegexParser`: constructor normalisation and `parse`.
- `OutputFunctionsParser`, `JsonOutputFunctionsParser` and `JsonKeyOutputFunctionsParser`: `parseResult`.
- `GoogleVertexAIEmbeddings`: chunking into requests of at most five instances, then flattening the responses.
- `VespaRetriever`: the request body, the response-to-document mapping and the URL suffix.

Language models, the regular-expression engine, `JSON.parse`, the Vertex AI
connection and the clock are parameters. They are functions or values the
caller supplies. Time is a number of milliseconds.

Files and modules:

| file | module | contents |
|---|---|---|
| `wrappers.dfy` | `Wrappers` | `Option` (for `undefined`) and `Result` (for a thrown error) |
| `strings.dfy` | `Strings` | the JavaScript string operations the code uses: `indexOf`, `includes`, `split`, `join`, `replaceAll`, `trim`, number printing |
| `json.dfy` | `Json` | JSON values, property read and write, `JSON.stringify` |
| `json_tools.dfy` | `JsonTools` | `tools/json.ts` |
| `constitutional.dfy` | `Constitutional` | `chains/constitutional_ai/constitutional_chain.ts` |
| `generative_agent.dfy` | `GenerativeAgents` | `experimental/generative_agents/generative_agent.ts` |
| `regex_parser.dfy` | `RegexOutput` | `output_parsers/regex.ts` |
| `function_parsers.dfy` | `FunctionParsers` | `output_parsers/openai_functions.ts` |
| `vertex_embeddings.dfy` | `VertexEmbeddings` | `embeddings/googlevertexai.ts` |
| `vespa.dfy` | `Vespa` | `retrievers/vespa.ts` |

Two kinds of code take an imperative form, because the source changes state there:
- `ConstitutionalChain._call` is a `while` loop, proved against the functions `Responses` and `StepCalls`.
- `GenerativeAgent` is a class. `getSummary` updates `summary` and `lastRefreshed`. The reply handling of `_call` appends to `memories`, the list of memories the agent has added.

Everything else is functions and lemmas.

## Model

| member | source | states |
|---|---|---|
| Strings.Contains | langchain/src/chains/constitutional_ai/constitutional_chain.ts:134 | `s.includes(pat)` holds exactly when `pat` occurs somewhere in `s` |
| Strings.SplitFirst | langchain/src/chains/constitutional_ai/constitutional_chain.ts:139 | `s.split(sep)[0]` is a prefix of `s` without `sep`; it ends where the first `sep` starts, or is all of `s` when there is none |
| Strings.SplitLast | langchain/src/experimental/generative_agents/generative_agent.ts:236 | the last piece of `s.split(sep)` has no `sep`; `s` is the earlier pieces joined, then `sep`, then that piece; it is all of `s` exactly when `s` has no `sep` |
| Strings.JoinSplit | langchain/src/experimental/generative_agents/generative_agent.ts:236 | joining the pieces of a split with the separator gives back the string |
| Strings.Trim | langchain/src/experimental/generative_agents/generative_agent.ts:86 | `s.trim()` has no whitespace at either end, and a string already without whitespace at its ends is unchanged |
| Strings.TrimOccurs | langchain/src/experimental/generative_agents/generative_agent.ts:86 | `s.trim()` is the text of `s` that begins right after its leading whitespace |
| Strings.TrimSurroundings | langchain/src/experimental/generative_agents/generative_agent.ts:86 | what `s.trim()` drops from `s` is whitespace at both ends |
| Json.Get | langchain/src/tools/json.ts:30 | reading a property finds a value exactly when the key is among the object's keys, and that member is in the object |
| Json.Put | langchain/src/retrievers/vespa.ts:39-42 | after assigning a property, the key reads the new value and every other key reads what it read before |
| Json.PutKeys | langchain/src/retrievers/vespa.ts:39-42 | assignment keeps key order; a new key goes last, an existing key keeps its place |
| Json.ArrayChildAtIndex | langchain/src/tools/json.ts:30 | a pointer token that is the printed index of an array element reaches that element |
| Json.Stringify | langchain/src/tools/json.ts:50 | `JSON.stringify` of an object is at least `{}`, delimited by braces; of an array, by brackets |
| JsonTools.EscapeKeyEscapesEachChar | langchain/src/tools/json.ts:33 | the two `replaceAll` passes, `~` first and then `/`, escape each character on its own as RFC 6901 section 3 writes it |
| JsonTools.EscapeKey | langchain/src/tools/json.ts:33 | the two `replaceAll` passes equal escaping each character on its own (`EscapeChars`), and the result holds no `/`; `UnescapeEscapeKey` is its inverse |
| JsonTools.UnescapeEscapeKey | langchain/src/tools/json.ts:33 | decoding as in RFC 6901 section 4 (`~1` first, then `~0`) recovers the key |
| JsonTools.EscapeKeyInjective | langchain/src/tools/json.ts:33 | distinct keys are listed as distinct escaped keys |
| JsonTools.EscapeKeyLacksSlash | langchain/src/tools/json.ts:33 | an escaped key has no `/`, so it reads back as one pointer token |
| JsonTools.ParsePointer | langchain/src/tools/json.ts:29 | a pointer is invalid exactly when it is non-empty and does not start with `/`; a valid pointer has one token per `/` |
| JsonTools.Lookup | langchain/src/tools/json.ts:29-30 | `pointer.get` fails exactly for a non-empty pointer without a leading `/`, with the library's message; the empty pointer gives the whole object; otherwise it follows the decoded tokens one property at a time (`ResolveAppend`, `ListedKeyAddressesMember`) |
| JsonTools.ParseAppendedKey | langchain/src/tools/json.ts:29-33 | appending `/` and an escaped key to a pointer appends that key, as one token, to the pointer's tokens |
| JsonTools.ResolveAppend | langchain/src/tools/json.ts:30 | resolving one more token takes one more property step from the value reached so far |
| JsonTools.GetKeys | langchain/src/tools/json.ts:28-40 | the result is a value exactly when the pointer reaches a non-null, non-array object; it is then the escaped keys in key order joined by ", "; otherwise the "not a dictionary" error for that input (or the pointer's error) |
| JsonTools.ListedKeysDecode | langchain/src/tools/json.ts:32-34 | the listing has one entry per key, and entry `i` decodes to key `i` |
| JsonTools.ListedKeyAddressesMember | langchain/src/tools/json.ts:28-34 | a listed key appended to the input pointer reaches that key's value |
| JsonTools.GetValue | langchain/src/tools/json.ts:42-63 | an error exactly for a null or missing value (or a bad pointer), with its message. A value not longer than the limit is returned unchanged. A longer non-array object gives the large-dictionary advice. Any other longer value gives its first `maxValueLength` characters and "...". With a limit of at least 0, the result is at most `maxValueLength + 3` long or the advice |
| JsonTools.NewJsonSpec | langchain/src/tools/json.ts:22-26 | the constructor keeps the object and the given limit |
| JsonTools.DefaultMaxValueLength | langchain/src/tools/json.ts:20-25 | the limit defaults to 4000 |
| JsonTools.GetValueExamples | langchain/src/tools/json.ts:42-63 | in `{"a":{"b":"x"}}`, `/a/b` gives `x`; with limit 1, `/a` gives the large-dictionary advice |
| JsonTools.ListKeysTool | langchain/src/tools/json.ts:94-100 | the list-keys tool returns the keys, or `Error: ` and the message; it never fails |
| JsonTools.GetValueTool | langchain/src/tools/json.ts:119-125 | the get-value tool returns the value text, or `Error: ` and the message; it never fails |
| JsonTools.ListKeysToolOnNonObject | langchain/src/tools/json.ts:37-39 | listing the keys of a non-object answers with the "not a dictionary" text |
| Constitutional.ParseCritique | langchain/src/chains/constitutional_ai/constitutional_chain.ts:132-145 | the parsed critique is a prefix of the reply |
| Constitutional.ParseCritiqueCutsAtFirstMarker | langchain/src/chains/constitutional_ai/constitutional_chain.ts:133-144 | a reply without "Revision request" is unchanged. Otherwise the critique holds neither "Revision request:" nor a blank line, no such marker starts anywhere inside it in the reply, and it stops at the end of the reply or right before a marker: so it stops at the first one |
| Constitutional.Responses | langchain/src/chains/constitutional_ai/constitutional_chain.ts:56-87 | the loop goes through `K + 1` responses, and the first is the initial chain's response |
| Constitutional.StepCalls | langchain/src/chains/constitutional_ai/constitutional_chain.ts:62-87 | each of the `K` steps makes two calls |
| Constitutional.ResponsesChain | langchain/src/chains/constitutional_ai/constitutional_chain.ts:62-87 | response `i + 1` is the revision of response `i` under principle `i` |
| Constitutional.StepCallsShape | langchain/src/chains/constitutional_ai/constitutional_chain.ts:63-85 | step `i` makes a critique call and then a revision call about principle `i` and response `i`; the revision gets the parsed critique |
| Constitutional.ConstitutionalChain.Call | langchain/src/chains/constitutional_ai/constitutional_chain.ts:52-92 | `_call` returns `{output}` with the last response, the initial one when there are no principles; its call log is one original call, then the step calls |
| Constitutional.CallLog | langchain/src/chains/constitutional_ai/constitutional_chain.ts:56-87 | `1 + 2K` calls: the original call first, then a critique and a revision call per principle, in list order, each about the response of the step before |
| Constitutional.SamePromptEverywhere | langchain/src/chains/constitutional_ai/constitutional_chain.ts:60-83 | every critique and revision call carries the same `input_prompt` |
| Constitutional.Lookup | langchain/src/chains/constitutional_ai/constitutional_chain.ts:96 | `PRINCIPLES[name]` is undefined exactly when no entry has that name among the registry's own keys; otherwise it is a registered entry's principle |
| Constitutional.LookupRegistered | langchain/src/chains/constitutional_ai/constitutional_chain.ts:96 | with distinct keys, a registered name finds its own principle |
| Constitutional.GetPrinciples | langchain/src/chains/constitutional_ai/constitutional_chain.ts:94-99 | with names (even an empty list), one lookup per name, in order; without, every registered principle in order |
| Constitutional.FromLLM | langchain/src/chains/constitutional_ai/constitutional_chain.ts:101-130 | the caller's main chain and prompt are kept; absent principles become the empty list; absent critique and revision chains become the defaults |
| GenerativeAgents.StripEnumeration | langchain/src/experimental/generative_agents/generative_agent.ts:88 | a line that does not start with whitespace, digits and a full stop is unchanged; otherwise what is removed from its front is exactly whitespace, at least one digit, a full stop and whitespace, and what is left does not start with whitespace |
| GenerativeAgents.StripNumberedLine | langchain/src/experimental/generative_agents/generative_agent.ts:88 | the enumeration `k. ` is removed from a numbered line, and nothing more |
| GenerativeAgents.ParseList | langchain/src/experimental/generative_agents/generative_agent.ts:84-91 | one item per line of the trimmed text; each is the line without its enumeration, trimmed |
| GenerativeAgents.ParseNumberedList | langchain/src/experimental/generative_agents/generative_agent.ts:84-91 | parsing `1. a\n2. b\n...` gives back `a, b, ...` when the items are non-empty, single-line and trimmed |
| GenerativeAgents.CleanResponse | langchain/src/experimental/generative_agents/generative_agent.ts:272-278 | `undefined` gives ""; otherwise the result is trimmed and occurs in the text; a text starting with "name " gives the trimmed rest after it, any other text is trimmed as a whole |
| GenerativeAgents.CleanNamedReply | langchain/src/experimental/generative_agents/generative_agent.ts:276-277 | a reply "name " + rest is cleaned to the trimmed rest |
| GenerativeAgents.CleanKeepsCleanText | langchain/src/experimental/generative_agents/generative_agent.ts:276-277 | a trimmed text not starting with "name " is left as it is |
| GenerativeAgents.AfterLast | langchain/src/experimental/generative_agents/generative_agent.ts:236 | `split(marker).pop()` holds no marker, and is the whole reply when the reply has none (`AfterLastMarker` gives the decomposition) |
| GenerativeAgents.AfterLastMarker | langchain/src/experimental/generative_agents/generative_agent.ts:235-266 | the text after the last marker holds no marker, and the reply is some text, the marker, then that text |
| GenerativeAgents.Classify | langchain/src/experimental/generative_agents/generative_agent.ts:231-269 | `continue_dialogue` holds exactly when there is no `REACT:` but a `SAY:`; a memory is recorded exactly when a marker occurs; with no marker the output is the raw reply; in each marker branch the output and the memory text are built from the cleaned text after the last marker of that branch |
| GenerativeAgents.ReactTakesPrecedence | langchain/src/experimental/generative_agents/generative_agent.ts:235-244 | with `REACT:` present, the output is the cleaned text after the last `REACT:`, the dialogue stops, and the reaction memory is recorded |
| GenerativeAgents.SpokenReply | langchain/src/experimental/generative_agents/generative_agent.ts:245-266 | without `REACT:`, a `SAY:` (or else `GOODBYE:`) reply reads "name said <words>", where the words are the trimmed, cleaned text after the last such marker, which holds none; the memory records the same words; only `SAY:` continues the dialogue |
| GenerativeAgents.NeedsRefresh | langchain/src/experimental/generative_agents/generative_agent.ts:325-333 | an empty summary or a forced call always regenerates; otherwise the floored whole seconds reach the period exactly when the elapsed milliseconds reach 1000 times the period |
| GenerativeAgents.Refreshed | langchain/src/experimental/generative_agents/generative_agent.ts:325-336 | the cache is regenerated, holding the trimmed text and `now`, exactly when the summary is empty, or `floor(elapsed / 1000)` reaches the refresh period, or the refresh is forced; otherwise it is unchanged |
| GenerativeAgents.AtMostOneRefreshInPeriod | langchain/src/experimental/generative_agents/generative_agent.ts:329-336 | of two consecutive unforced calls (the second starts after the first returns) less than the refresh period apart, with a non-empty regenerated summary, at most one regenerates |
| GenerativeAgents.AgeText | langchain/src/experimental/generative_agents/generative_agent.ts:338-343 | the age prints as "N/A" exactly when it is absent or 0, and otherwise as its decimal number |
| GenerativeAgents.SummaryHeader | langchain/src/experimental/generative_agents/generative_agent.ts:345-347 | the header starts with the name and the printed age, and ends with the summary |
| GenerativeAgents.GenerativeAgent.constructor | langchain/src/experimental/generative_agents/generative_agent.ts:63-81 | the summary starts empty, the refresh period is 3600 seconds unless configured, and the last refresh is the creation time |
| GenerativeAgents.GenerativeAgent.GetSummary | langchain/src/experimental/generative_agents/generative_agent.ts:316-348 | the new `summary`/`lastRefreshed` are `Refreshed` of the old ones; the header is "Name: … (age: …)\nInnate traits: …\n" and the summary |
| GenerativeAgents.GenerativeAgent.React | langchain/src/experimental/generative_agents/generative_agent.ts:231-269 | output and flag are `Classify`'s; exactly the branch's one memory is appended, none without a marker |
| RegexOutput.Compile | langchain/src/output_parsers/regex.ts:62-76 | a pattern string has no flags; a `RegExp` keeps its source and flags; absent flags are none |
| RegexOutput.FromFields | langchain/src/output_parsers/regex.ts:51-79 | the parser keeps the keys and default key and compiles the regex |
| RegexOutput.FromPositional | langchain/src/output_parsers/regex.ts:57-60 | the positional form is the fields form of the same arguments |
| RegexOutput.FromGroups | langchain/src/output_parsers/regex.ts:88-91 | after a match the record has exactly the output keys |
| RegexOutput.FromGroupsValues | langchain/src/output_parsers/regex.ts:88-91 | key `i` holds capture group `i + 1` (`undefined` past the end); a repeated key takes its last position's group |
| RegexOutput.WithDefault | langchain/src/output_parsers/regex.ts:98-101 | without a match, the record has exactly the output keys; the default key holds the text and the others "" |
| RegexOutput.Parse | langchain/src/output_parsers/regex.ts:85-102 | an error exactly when there is no match and no default key, an `OutputParserException` with "Could not parse output: " and the text; otherwise the key set is the output keys |
| RegexOutput.DistinctKeysTakeTheirGroups | langchain/src/output_parsers/regex.ts:86-91 | with distinct keys and a match, key `i` holds group `i + 1` |
| FunctionParsers.NewOutputFunctionsParser | langchain/src/output_parsers/openai_functions.ts:20-25 | `argsOnly` is true unless configured |
| FunctionParsers.FunctionCallJson | langchain/src/output_parsers/openai_functions.ts:46 | the function call as an object whose `arguments` member is the arguments text |
| FunctionParsers.ParseFunctionResult | langchain/src/output_parsers/openai_functions.ts:27-52 | no generation, no message, no `function_call`, or missing/empty `arguments` each raise their error, in that order; it succeeds exactly when the first generation has a function call with non-empty `arguments`, returning the arguments text with `argsOnly` and the serialised call without; `NoGeneration` stands for the TypeError the `in` operator throws on an undefined `generations[0]`, not one of the parser's own errors |
| FunctionParsers.OnlyFirstGenerationCounts | langchain/src/output_parsers/openai_functions.ts:30-31 | generations after the first do not change the outcome |
| FunctionParsers.FunctionResultNonEmpty | langchain/src/output_parsers/openai_functions.ts:78-82 | a successful result is never "", so the `!result` check cannot fire |
| FunctionParsers.NewJsonOutputFunctionsParser | langchain/src/output_parsers/openai_functions.ts:66-72 | the parser and its inner parser share `argsOnly`, true by default |
| FunctionParsers.ParseJsonResult | langchain/src/output_parsers/openai_functions.ts:74-89 | inner errors pass through; with `argsOnly` the result is `JSON.parse` of the inner parser's text, or a syntax error for that text |
| FunctionParsers.FullFunctionCallParsed | langchain/src/output_parsers/openai_functions.ts:83-88 | without `argsOnly`, the result is the function call with `arguments` replaced by its parsed value and the name kept |
| FunctionParsers.NonObjectCallRejected | langchain/src/output_parsers/openai_functions.ts:83-88 | without `argsOnly`, a parsed call that is `null` fails with a `TypeError`, and any other non-object fails with the `SyntaxError` of `JSON.parse(undefined)` |
| FunctionParsers.NewJsonKeyOutputFunctionsParser | langchain/src/output_parsers/openai_functions.ts:103-110 | the keyed parser's inner parser always has `argsOnly` |
| FunctionParsers.ParseKeyResult | langchain/src/output_parsers/openai_functions.ts:112-115 | the keyed result fails exactly when the inner parser fails (with its error) or returns `null` (a `TypeError`); otherwise it is the `attrName` property of the inner result |
| FunctionParsers.KeyedFieldOfArguments | langchain/src/output_parsers/openai_functions.ts:112-115 | the keyed result is the field of the parsed arguments object, and `undefined` (not an error) when the field is absent |
| VertexEmbeddings.ChunkArray | langchain/src/embeddings/googlevertexai.ts:68-73 | every chunk holds between one and `size` elements |
| VertexEmbeddings.ChunkArrayKeepsOrder | langchain/src/embeddings/googlevertexai.ts:68-73 | the chunks, concatenated, are the input in order |
| VertexEmbeddings.ChunksOfFiveCount | langchain/src/embeddings/googlevertexai.ts:68-73 | `ceil(n/5)` chunks, all full but the last |
| VertexEmbeddings.ChunksOfFivePosition | langchain/src/embeddings/googlevertexai.ts:68-73 | element `i` is at place `i % 5` of chunk `i / 5` |
| VertexEmbeddings.TwelveDocumentsInThreeRequests | langchain/src/embeddings/googlevertexai.ts:68-73 | twelve documents go out as chunks of 5, 5 and 2 |
| VertexEmbeddings.RequestCount | langchain/src/embeddings/googlevertexai.ts:68-80 | one request per chunk, `ceil(n/5)` in all, each of one to five instances, together carrying every document once in order |
| VertexEmbeddings.ResponseVectors | langchain/src/embeddings/googlevertexai.ts:84-87 | a response without `data` or `predictions` contributes no vectors; otherwise one vector per prediction, in order |
| VertexEmbeddings.EmbedDocuments | langchain/src/embeddings/googlevertexai.ts:67-91 | no documents give no vectors; with one prediction per instance, vector `i` belongs to document `i` (`VectorsMatchDocuments`) |
| VertexEmbeddings.VectorsMatchDocuments | langchain/src/embeddings/googlevertexai.ts:81-90 | with one prediction per instance, there is one vector per document, and vector `i` is prediction `i % 5` of request `i / 5`, whose instance is document `i` |
| VertexEmbeddings.EmbedQuery | langchain/src/embeddings/googlevertexai.ts:93-96 | `embedQuery(d)` is element 0 of `embedDocuments([d])`, or `undefined` when that is empty |
| VertexEmbeddings.EmbedQuerySendsOneInstance | langchain/src/embeddings/googlevertexai.ts:93-96 | `embedQuery(d)` sends one request holding `d` alone and answers with that response's first vector |
| Vespa.NewVespaRetriever | langchain/src/retrievers/vespa.ts:30-36 | the URL gets "/search/?" appended once; the body and content field are kept |
| Vespa.CreateJsonBody | langchain/src/retrievers/vespa.ts:38-43 | `query` holds the query, overriding any in `query_body`; every other field of `query_body` is kept |
| Vespa.CreateJsonBodyKeys | langchain/src/retrievers/vespa.ts:38-43 | the body keeps `query_body`'s key order, with `query` last unless already present |
| Vespa.ChildDocument | langchain/src/retrievers/vespa.ts:53-56 | a child throws exactly when its `fields` is missing or `null`; otherwise its document has `fields[content_field]` as page content and the child's `id` as its only metadata |
| Vespa.MapChildren | langchain/src/retrievers/vespa.ts:46-57 | mapping succeeds exactly when every child does; then one document per child, in order |
| Vespa.ProcessJsonResponse | langchain/src/retrievers/vespa.ts:45-58 | a result needs `root.children` to be an array, and has one document per child |
| Vespa.ResponseDocuments | langchain/src/retrievers/vespa.ts:45-58 | for children with object `fields`, document `i` is child `i`'s content field and id |
| Vespa.ResponseWithoutChildren | langchain/src/retrievers/vespa.ts:46 | a response without a `root.children` array throws a `TypeError` |

## Left out

- The `jsonpointer` library is not part of this model. `JsonTools.ParsePointer` follows RFC 6901: the empty pointer, otherwise `/`-separated tokens decoded as in section 4. Its error message "Invalid JSON pointer." stands in for the library's.
- JSON numbers are integers here. Fractions, exponents and JavaScript's number printing are not modelled.
- String lengths count characters. JavaScript counts UTF-16 code units, so `JsonTools.GetValue`'s limit and slice differ on characters outside the Basic Multilingual Plane.
- Objects keep members in insertion order. JavaScript lists integer-like keys first in ascending order, which `Json.Keys` and `Json.Stringify` do not reproduce.
- `Json.Child` reads own members of objects and array elements only. It does not read the `length` property, inherited properties or string indexing.
- Language-model chains, prompt formatting and callbacks are parameters or left out. The critique, revision and original chains are functions. `input_prompt` is the `prompt` function's result.
- `chains/constitutional_ai/constitutional_principle.ts`, which defines `PRINCIPLES`, is not part of this model. The registry is a parameter of `Constitutional.GetPrinciples`.
- `GenerativeAgents.GenerativeAgent.GetSummary`: the text of `computeAgentSummary` is the parameter `generated`, and the method stores its trimmed form. Dates are milliseconds.
- `GenerativeAgents.GenerativeAgent.GetSummary`: the await between the staleness check and the writes of `summary` and `lastRefreshed` is collapsed, so overlapping calls, which may both regenerate, are not modelled; `AtMostOneRefreshInPeriod` speaks of consecutive calls only.
- The rest of `GenerativeAgent._call` is left out: building the prompt, token counting, memory retrieval, `toLocaleString` formatting and the `getSummary({})` call inside it. The same goes for `getFullHeader`, `getEntityFromObservations`, `getEntityAction`, `summarizeRelatedMemories`, `generateReaction` and `generateDialogueResponse`. These are language-model calls and locale formatting.
- The memory store is only the list of memories the agent adds (`memories`). Retrieval and scoring are not modelled.
- `GenerativeAgents.CleanResponse` removes the agent's name as literal text. A name containing regular-expression metacharacters would be read as a pattern by `new RegExp`, and that is not modelled.
- `GenerativeAgents.AgeText` does not treat `NaN` as falsy, because ages are integers here.
- The regular-expression engine is the `Matcher` parameter of `RegexOutput.Parse`. `getFormatInstructions` and serialisation fields are left out.
- `FunctionParsers.ParseFunctionResult`: the error messages embed `JSON.stringify(generations)` of library objects. The model's errors carry the generations instead of that text.
- `FunctionParsers.ParseJsonResult`: `JSON.parse` is the `parse` parameter. Without `argsOnly`, a parsed result that is `null` raises a `TypeError`. Any other non-object result (an array, string, number or boolean) has no `arguments`, so `JSON.parse(undefined)` raises a `SyntaxError` on the text "undefined", as in JavaScript (`FunctionParsers.NonObjectCallRejected`). Only if `parse` accepted "undefined", which `JSON.parse` never does, would the model answer `TypeError` where JavaScript sets the property on an array.
- `RegexOutput.Parse`: the result is a map, so the insertion order of the keys in the returned object is not modelled.
- `RegexOutput.Compile`: `new RegExp` throws a `SyntaxError` on an invalid pattern or flags; patterns are opaque values here and that error is not modelled.
- `Constitutional.ConstitutionalChain.Call`: the three chains are total functions, so a chain call that throws partway through the loop, leaving the earlier calls made, is not modelled.
- `Constitutional.ConstitutionalChain.Call`: principles are a `seq<Principle>` and never `undefined`, so the TypeError thrown when an undefined principle's `critiqueRequest` is read, after the original chain call, is not modelled.
- `Constitutional.Lookup`: only the registry's own keys are read; in JavaScript `PRINCIPLES[name]` also resolves names inherited from `Object.prototype`, such as `toString` and `constructor`, and those lookups are not modelled.
- `util/chunk.ts` is not part of this model. `VertexEmbeddings.ChunkArray` splits into consecutive chunks of the given size, as `chunkArray` does.
- Vertex AI's `Promise.all` concurrency is not modelled; only the order of the results is. A request that fails, and the connection's authentication and model settings, are left out.
- `Vespa`: the HTTP transport of `RemoteRetriever`, and the base URL it stores, are not modelled. `document.ts` is not part of this model: `new Document(...)` is taken to store `pageContent` as given, and the `as string` cast is not checked, so the page content is whatever JSON value the field holds.
