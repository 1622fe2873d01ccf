# PyBridge / Zynk core in Dafny

This project models the core of PyBridge, a bridge that exposes Python functions as typed commands to a TypeScript client. The model covers four parts:

- **The command registry** (`pybridge/registry.py`):
  - the `@command` decorator's signature extraction;
  - unique command registration;
  - model registration;
  - the recursive collection of Pydantic models reachable from a type hint.
- **The TypeScript generator** (`pybridge/generator.py`):
  - the mapping from a Python type hint to TypeScript type text;
  - snake_case to camelCase/PascalCase;
  - the emitted interface and command-stub lines;
  - the worklist that emits every needed interface;
  - the key converters of the generated runtime.
- **The HTTP bridge** (`pybridge/bridge.py`):
  - binding a request body to a command's parameters;
  - result normalisation;
  - failure classification;
  - running a streaming command;
  - opening and draining a channel;
  - the HTTP status each failure gets.
- **The WebSocket connection** (`build/lib/zynk/websocket.py`):
  - the `{"event", "data"}` envelope;
  - the event tables read off the event classes;
  - the CONNECTING → CONNECTED → DISCONNECTED status machine, the handler table and message dispatch.

Python reflection becomes explicit data:

- A type annotation is a `TypeHints.TypeHint` tree.
- A Pydantic model is a `ModelDef` with its ordered fields.
- The universe of model classes is a map from class name to definition.
- A function's signature is a `Registry.FunctionSig`.

Calls into code outside the model are function parameters of the operations:

- command functions;
- Pydantic validation;
- `json.loads`;
- the channel's producer.

The registry is an immutable value. Every mutation returns a new registry, and `ValueError` becomes a `Result` error.

Modules, in dependency order:

| module | file | role |
|---|---|---|
| `Common` | common.dfy | `Option`, `Result`, `dict.get` |
| `Strings` | strings.dfy | `str.split`, `"sep".join`, `str.strip`, code-point order, `sorted()` on a set of names |
| `TypeHints` | type_hints.dfy | the annotation tree, the model names it mentions, model definitions |
| `Casing` | casing.dfy | `str.title`, camel/Pascal case, the runtime's key converters |
| `TsSyntax` | ts_syntax.dfy | a reference grammar for TypeScript type expressions (the array suffix binds tighter than a union), its printer, lexer and parser, and the proof that printed text parses back |
| `TypeMapping` | type_mapping.dfy | `_type_to_ts` |
| `Registry` | registry.dfy | the registry and the `@command` decorator |
| `Emit` | emit.dfy | interface and command-stub text |
| `Generator` | generator.dfy | the `generate` worklist and the assembled document |
| `Dispatch` | dispatch.dfy | `bridge.py`'s request handling |
| `WebSocket` | websocket.dfy | the WebSocket envelope and connection |

Three behaviours of the code that a reader might not expect:

- **Unregistered reference.** A type reference to a model that is not registered is not a generation error. The worklist marks the name generated and emits nothing for it (pybridge/generator.py:533-538).
- **Result normalisation.** Normalisation dumps a returned model and the models directly inside a returned list. It does not dump models nested in dicts or in lists of lists (pybridge/bridge.py:302-311). `Dispatch.NestedModelsKept` exhibits this.
- **Missing parameters.** A parameter missing from the request body is left out of the call and is not an error. Only the `TypeError` the call then raises becomes a validation error (pybridge/bridge.py:294-297, 313-314).

The generator's casing and the runtime's key converters agree only on snake_case names whose underscores are followed by letters. `Casing.CamelCaseDigitDisagrees` shows `line_2`: the interface declares `line2`, while `convertKeysToCamelCase` leaves the wire key `line_2` as it is.

## Model

| member | source | states |
|---|---|---|
| Strings.Split | pybridge/generator.py:172 | `str.split(c)`: at least one part, the first part is a prefix of the input, and no part contains the separator |
| Strings.JoinSplit | pybridge/generator.py:172-173 | joining the parts of a split with the separator gives the input back |
| Strings.SplitJoin | pybridge/generator.py:172-173 | splitting a join of separator-free parts gives the parts back |
| Strings.JoinInOrder | pybridge/generator.py:540-552 | the joined text holds every part at its own offset, in the given order, none overlapping the next |
| Strings.Strip | pybridge/generator.py:172-173 | `str.strip()`: the result neither starts nor ends with whitespace, and an already stripped string is unchanged |
| Strings.StripTrims | pybridge/generator.py:172-173 | `str.strip()` removes only whitespace, and only from the two ends: the result is the infix of the input at some offset, with whitespace alone before and after it |
| Strings.StripLeft | pybridge/generator.py:172-173 | the result is a suffix of the input, and every character removed is whitespace |
| Strings.StripRight | pybridge/generator.py:172-173 | the result is a prefix of the input, and every character removed is whitespace |
| Strings.LessTotal | pybridge/generator.py:518 | Python's string order is total on distinct names |
| Strings.LessTransitive | pybridge/generator.py:518 | Python's string order is transitive |
| Strings.SortSet | pybridge/generator.py:533 | `sorted(names)`: a strictly increasing sequence holding exactly the set's names |
| Strings.SortedUnique | pybridge/generator.py:518 | two strictly sorted sequences with the same names are equal, so the output order is determined by the registry content alone |
| Strings.FilterIn | pybridge/generator.py:533-536 | keeping the batch names that have a model keeps exactly those names, in sorted order |
| Casing.TitleFrom | pybridge/generator.py:43 | `str.title()` on ASCII: same length, the same positions hold letters, non-letters are unchanged, each position holds the same letter up to case, and a letter is upper-case exactly when the character before it is not a letter |
| Casing.CamelCase | pybridge/generator.py:40-43 | the result has no underscore, and a name without underscores is returned unchanged |
| Casing.PascalCase | pybridge/generator.py:46-48 | the result has no underscore; nothing in the modelled source calls `python_name_to_pascal_case`, so it affects no emitted text |
| Casing.CamelCaseUnderscore | pybridge/generator.py:40-48 | a name starting with `_` has an empty first component, so its camelCase is the PascalCase of the rest |
| Casing.PascalCaseSnake | pybridge/generator.py:40-48 | a snake_case name's PascalCase is its camelCase with the first letter upper-cased |
| Casing.WireKey | pybridge/generator.py:341 | `convertKeysToSnakeCase` on one key: the result has no upper-case letter |
| Casing.WireKeyUndoesCamelCase | pybridge/generator.py:335-347 | for a snake_case name, converting the camelCase spelling back to the wire gives the Python name |
| Casing.CamelCaseMatchesClientKey | pybridge/generator.py:349-361 | for a snake_case name, the generator's camelCase equals what `convertKeysToCamelCase` makes of the wire key |
| Casing.WireKeyUndoesClientKey | pybridge/generator.py:335-361 | the runtime's two converters are inverse on snake_case keys |
| Casing.CamelCaseDigitDisagrees | pybridge/generator.py:349-361 | for `line_2` the generator writes `line2`, but the runtime keeps `line_2` |
| TypeMapping.PrimTs | pybridge/generator.py:29-37 | str and bytes map to `string`, int and float to `number`, bool to `boolean`, each in both directions |
| TypeMapping.NonNone | pybridge/generator.py:94 | the non-None arguments: no `NoneType` remains, and every other argument is kept |
| TypeMapping.IndexKey | pybridge/generator.py:116-118 | a Record key is always `string` or `number`, and it is kept when it already is one |
| TypeMapping.RefsWithinModels | pybridge/generator.py:136-139 | every name added to `models_to_generate` is a model the hint mentions |
| TypeMapping.RefsAreModels | pybridge/generator.py:89-139 | for a hint whose models are all reachable by the mapping, the names added are exactly the models it mentions |
| TypeMapping.OptionalEitherOrder | pybridge/generator.py:92-98 | `Optional[X]` maps to the text of `X` followed by ` or null` in TypeScript union syntax, whether `None` comes first or last |
| TypeMapping.NullableUnionAdmitsNull | pybridge/generator.py:93-98 | a union containing `None` denotes a TypeScript union that has `null` as a member |
| TypeMapping.ContainersAsArrays | pybridge/generator.py:104-134 | a set maps exactly like a list; bare list and tuple map to `unknown[]`; a bare dict maps to `Record<string, unknown>` |
| TypeMapping.DictKeyIsIndexType | pybridge/generator.py:112-119 | `dict[K, V]` maps to `Record<k, V>`, where k is `number` for a number key and `string` otherwise |
| TypeMapping.TextNonEmpty | pybridge/generator.py:77-150 | the mapped text is never empty |
| TypeMapping.Denotes | pybridge/generator.py:79-150 | the corrected text is the canonical printing of the TypeScript type the hint denotes |
| TypeMapping.TsTypeReadsAsIntended | pybridge/generator.py:104-134 | a TypeScript parser reads the corrected text as the type the hint denotes |
| TypeMapping.AsWrittenMisreadsOptionalElements | pybridge/generator.py:105-108 | as written, `list[Optional[str]]` gives a text TypeScript reads as a union of `string` and `null[]`, not as an array of nullable strings |
| Registry.Register | pybridge/registry.py:77-91 | fails exactly when the name is taken, with the message naming both modules; otherwise adds the one command and leaves the models alone |
| Registry.RegisterModel | pybridge/registry.py:93-96 | the first registration under a name wins, and the name set grows by that name only |
| Registry.GetCommand | pybridge/registry.py:98-100 | finds a command exactly when its name is registered |
| Registry.Reset | pybridge/registry.py:70-75 | both tables are emptied |
| Registry.RegisterThenGet | pybridge/registry.py:84-100 | after registering, the command is found under its name and every other lookup is unchanged |
| Registry.RegisterTwiceFails | pybridge/registry.py:84-90 | a second registration under the same name fails, naming the first command's module and the second's |
| Registry.RegisterModelIdempotent | pybridge/registry.py:95-96 | registering the same model twice is registering it once |
| Registry.ResetFreesNames | pybridge/registry.py:70-91 | after reset, no name is found and any command registers cleanly |
| Registry.Collect | pybridge/registry.py:110-134 | keeps every collected model, adds every model the hint mentions, and adds with each new model every model its fields mention |
| Registry.CollectSeq | pybridge/registry.py:122-126 | the same, for each argument of a generic |
| Registry.CollectFields | pybridge/registry.py:129-134 | the same, for each field annotation of a new model |
| Registry.CollectLeast | pybridge/registry.py:110-134 | collection adds nothing outside any field-closed set holding the hint's models, so it collects exactly the reachable models |
| Registry.SelfReferenceCollectedOnce | pybridge/registry.py:129-134 | a self-referencing model is collected once, and the walk ends |
| Registry.CommandName | pybridge/registry.py:163 | a non-empty custom name wins, and otherwise the function's name is used |
| Registry.ParamsOf | pybridge/registry.py:171-189 | the parameters exclude `channel`, are typed by their hint or `Any`, and are all kept when there is no `channel` |
| Registry.ParamsOfCovers | pybridge/registry.py:176-189 | every signature parameter other than `channel` is a command parameter |
| Registry.BuildCommand | pybridge/registry.py:161-214 | the name is `CommandName`; the parameters are `ParamsOf` the signature and hints; the command streams exactly when the signature has `channel`; the return and channel hints come from the type hints; the async flag, docstring and module are the function's own |
| Registry.ChannelElement | pybridge/registry.py:180-185 | the channel's payload type exists exactly when the hint has a type argument |
| Registry.CollectParams | pybridge/registry.py:176-192 | collects every model mentioned by a parameter and by the channel payload, with their field dependencies |
| Registry.Decorate | pybridge/registry.py:161-217 | fails exactly on a taken name and then leaves the commands alone; otherwise adds the command; either way every model the command mentions, with its dependencies, is registered |
| Registry.DecorateThenGet | pybridge/registry.py:205-217 | a decorated function is found under its command name |
| Registry.ResetComplete | pybridge/registry.py:70-75 | an empty registry is dependency-complete |
| Registry.DecorateKeepsComplete | pybridge/registry.py:176-196 | decoration keeps the registry dependency-complete: every model a registered command or model mentions is registered |
| Registry.RegisterModelSkipsFields | pybridge/registry.py:93-96 | registering a model directly does not register the models its fields use, which breaks completeness |
| Emit.DocBlock | pybridge/generator.py:170-174 | one line per line of the stripped docstring, between `/**` and ` */`; inner line k is ` * ` followed by docstring line k stripped; no emitted line contains a newline |
| Emit.DocBlockReadsBack | pybridge/generator.py:170-174 | a reader that checks the `/**` … ` */` frame and drops each ` * ` prefix gets back the docstring's stripped lines |
| Emit.DocBlockRoundTrip | pybridge/generator.py:170-174 | when no docstring line has surrounding whitespace, joining the read-back lines with newlines gives the stripped docstring back |
| Emit.DocLinesReadBack | pybridge/generator.py:253-257 | a block is emitted, and reads back as the docstring's stripped lines, exactly when the docstring is present and non-empty; otherwise no line is emitted |
| Emit.FieldLines | pybridge/generator.py:191-196 | a field emits its member line, preceded by `/** <description> */` exactly when it has a description |
| Emit.Interface | pybridge/generator.py:152-199 | the doc block, then `export interface <Name> {`, then the lines of every field in declaration order, then `}`; every referenced name is a model the fields mention |
| Emit.FieldsRefsWithinModels | pybridge/generator.py:178-180 | an interface references only models its fields mention |
| Emit.InterfaceRefsAreFieldModels | pybridge/generator.py:178-180 | for visible field types, an interface references exactly the models its fields mention |
| Emit.MemberLinesInOrder | pybridge/generator.py:178-196 | the member lines follow the fields' declaration order: an earlier field's member line sits at a smaller index of the interface body than a later one's |
| Emit.MemberLineAt | pybridge/generator.py:178-196 | every field's member line sits in the interface body, at the end of that field's own lines |
| Emit.MemberLineReadsBack | pybridge/generator.py:179-196 | a member line reads back as the camelCase key, `?` exactly when the field is optional or nullable, and the type text `_type_to_ts` writes |
| Emit.MemberKeyReachesField | pybridge/generator.py:179-196 | the runtime's wire conversion of a member key gives back the snake_case field name |
| Emit.ParamEntryReadsBack | pybridge/generator.py:225-228 | for a parameter whose name holds no `:` or `?`, its `key: Type` entry of the argument type reads back as the parameter's camelCase key, required, with the type text `_type_to_ts` writes |
| Emit.ParamsRefs | pybridge/generator.py:225-228 | the parameter types reference only models the parameters mention |
| Emit.StubReturn | pybridge/generator.py:231-250 | a stream without a payload type returns `unknown`, a stream with one its type; a missing or `None` return, or one whose text is `void` or `null`, gives `void`; any other return type's text is kept; a non-streaming stub never resolves to `null` |
| Emit.CommandStub | pybridge/generator.py:201-289 | the doc block, then a signature opening with `export async function <camelName>(` (plain `function` for a stream) and closing with `Promise<T> {` (`BridgeChannel<T> {`); between them exactly `args: ` followed by the parameters' object type when the command has parameters, and nothing otherwise; then a call to `request(` or `createChannel(` quoting the command name and passing `args`, or `{}` for a command without parameters; then `}`; only models the command mentions are referenced |
| Emit.StubSignatureHoldsEntries | pybridge/generator.py:221-229 | every `key: Type` entry of the argument type occurs whole in the stub's signature line, in parameter order and without overlap |
| Emit.StubArgsReadBack | pybridge/generator.py:221-229 | for each parameter whose name holds no `:` or `?` (true of every Python identifier), the stub's signature line holds an entry that reads back as that parameter's camelCase key with the type text `_type_to_ts` writes |
| Emit.StubCallsRegisteredName | pybridge/generator.py:260-287 | the one quoted string in the call line is the registered command name |
| Emit.StubKeysReachParams | pybridge/generator.py:224-229 | each parameter entry reads back, and the runtime converts its key back to the Python parameter name |
| Generator.CollectStubRefs | pybridge/generator.py:516-520 | the queued names are exactly the models the stubs reference |
| Generator.Round | pybridge/generator.py:532-538 | one pass over a batch emits the batch's registered models in order and queues every model their interfaces reference |
| Generator.RoundEmits | pybridge/generator.py:530-538 | only the first round emits interfaces, and it emits every registered model in sorted order |
| Generator.RoundProgress | pybridge/generator.py:530-538 | a round keeps the worklist invariant and strictly shrinks the names left to generate |
| Generator.Worklist | pybridge/generator.py:526-538 | the loop ends; it emits the registered models sorted; everything queued is generated; every interface's references are generated |
| Generator.Generate | pybridge/generator.py:472-538 | commands are emitted in sorted order, interfaces for exactly the registered models in sorted order, and every name a stub or interface references is generated |
| Generator.Document | pybridge/generator.py:540-552 | the document starts with the header and is the header alone when nothing was emitted |
| Generator.DocumentInOrder | pybridge/generator.py:540-552 | every interface text and then every stub text appears in the document, each whole, in emission order and without overlap |
| Generator.NoDanglingReferences | pybridge/generator.py:516-538 | with a dependency-complete registry, every name a stub or interface references has an interface |
| Generator.StubRefsRegistered | pybridge/generator.py:516-524 | with a dependency-complete registry, every model a stub references is registered |
| Dispatch.Bind | pybridge/bridge.py:294-297 | the keyword arguments are exactly the declared parameters the body has, with the body's values |
| Dispatch.Normalize | pybridge/bridge.py:302-311 | a model becomes its dump; list items that are models become their dumps; anything else is returned as is |
| Dispatch.NormalizeUnwraps | pybridge/bridge.py:302-309 | no model instance remains at the top or among a list's items |
| Dispatch.NormalizeIdempotent | pybridge/bridge.py:302-311 | normalising twice is normalising once |
| Dispatch.NestedModelsKept | pybridge/bridge.py:303-311 | models inside a dict or a nested list are left undumped |
| Dispatch.ExecuteCommand | pybridge/bridge.py:292-317 | as written: succeeds exactly when the command is `async def` and returns, with the normalised value; a plain command that returns fails on `await` with `Invalid arguments: object <type> can't be used in 'await' expression`; a `TypeError` becomes `Invalid arguments: …`; any other exception an execution error carrying its message |
| Dispatch.ExecuteCommandIntended | pybridge/registry.py:219-229 | as intended: succeeds exactly when the call returns, with the normalised value, and fails with the same errors as written otherwise |
| Dispatch.SyncCommandFailsOnAwait | pybridge/bridge.py:300 | a plain command that returns is answered with the `await` validation error, where the intended bridge gives its value |
| Dispatch.ExecuteAgreesWhenAwaitable | pybridge/bridge.py:292-317 | as written and as intended agree on every `async def` command and every call that raises, and the intended result does not depend on how the command was declared |
| Dispatch.PlainPingRejected | pybridge/registry.py:150-152 | the documented plain command `def ping() -> str: return "pong"` is answered 400 with the `await` error, where the intended bridge answers `pong` |
| Dispatch.BindWithChannel | pybridge/bridge.py:335-338 | the streaming call gets the bound parameters plus `channel` |
| Dispatch.ExecuteChannelCommand | pybridge/bridge.py:333-348 | the producer's sends come first, then one terminal operation: a close exactly when the command is `async def` and returned; otherwise an error frame with the exception's message, or with the `await` error for a plain command |
| Dispatch.ExecuteChannelCommandIntended | pybridge/registry.py:219-229 | as intended: the channel is closed exactly when the command returned and gets an error frame exactly when it raised |
| Dispatch.SyncStreamEndsInError | pybridge/bridge.py:341-348 | a plain streaming command that returns sends the same frames as intended but ends with an error frame instead of a close |
| Dispatch.StreamKeepsSends | pybridge/bridge.py:340-344 | every message the command sent reaches the channel in order, followed by one terminal operation |
| Dispatch.ParseBody | pybridge/bridge.py:164-168 | an empty body reads as `{}`, and malformed JSON is a validation error `Invalid JSON body: …` |
| Dispatch.ExecuteRoute | pybridge/bridge.py:155-173 | an unknown command is not-found before the body is read; a malformed body is a validation error; otherwise the answer is `{"result": v}` exactly when the command succeeds, with v its normalised value, and the command's own error unchanged when it fails |
| Dispatch.RouteIgnoresUndeclaredKeys | pybridge/bridge.py:294-297 | a body key that names no parameter of the command does not change the route's answer |
| Dispatch.RouteStatuses | pybridge/bridge.py:155-173 | the route answers 404 exactly for an unknown command, and 400 for every failure of a known one |
| Dispatch.InitChannel | pybridge/bridge.py:175-203 | not-found first, then `Command '<name>' does not support channels`, then `Invalid JSON body: …`; a channel opens exactly for a known streaming command with a readable body, with the fresh id, the command and the parsed body |
| Dispatch.OpenedChannelStreamsAll | pybridge/bridge.py:196-221 | once an opened channel's command has run, a client that stays on the stream receives every frame it produced, ending with its one close or error |
| Dispatch.Drain | pybridge/bridge.py:216-223 | the stream forwards a prefix of the channel's messages, stops after the first close or error (or when the client leaves), and always removes the channel |
| Dispatch.DrainStopsAtFirstTerminal | pybridge/bridge.py:218-221 | when the client stays, the stream ends with the first terminal message |
| Dispatch.StreamMissing | pybridge/bridge.py:210-214 | an unknown channel id is answered with 404 |
| Dispatch.ErrorStatus | pybridge/bridge.py:238-249 | not-found gives 404, internal errors give 500, validation and execution errors give 400, each in both directions |
| Dispatch.Respond | pybridge/bridge.py:238-271 | a Pydantic error gives 400 `VALIDATION_ERROR`; an unhandled one gives 500 `INTERNAL_ERROR`, whose message is shown only in debug mode |
| Dispatch.DebugOnlyAffectsMessage | pybridge/bridge.py:262-271 | debug mode changes only the message of an unhandled error |
| WebSocket.ToJson | build/lib/zynk/websocket.py:44-46 | the envelope is an object with exactly the keys `event` and `data` |
| WebSocket.FromJson | build/lib/zynk/websocket.py:48-52 | only an object parses; a missing `event` reads as `message`, a missing `data` as `{}`, and present values are taken as they are |
| WebSocket.EnvelopeRoundTrip | build/lib/zynk/websocket.py:44-52 | parsing what `to_json` wrote gives back the same event and data |
| WebSocket.EmptyObjectDefaults | build/lib/zynk/websocket.py:52 | `{}` reads as a `message` event with empty data |
| WebSocket.ExtraKeysIgnored | build/lib/zynk/websocket.py:52 | keys other than `event` and `data` do not affect the parsed message |
| WebSocket.ExtractEventTypes | build/lib/zynk/websocket.py:55-81 | the table is the class's public declared names, each with its resolved hint when there is one and its raw annotation otherwise; no class gives an empty table |
| WebSocket.Open | build/lib/zynk/websocket.py:108-121 | a new connection is CONNECTING and not connected, with no handlers, and each event table holds exactly the public names its class declares, typed by hint first and annotation second |
| WebSocket.DeclaredModelEventValidated | build/lib/zynk/websocket.py:208-222 | on a new connection, a client event declared with a model type and object data that validates reaches its handler as that model |
| WebSocket.PrivateEventStaysRaw | build/lib/zynk/websocket.py:66-81 | an event named with a leading `_` is in no table, so its data reaches its handler unchanged |
| WebSocket.Accept | build/lib/zynk/websocket.py:133-136 | the status becomes CONNECTED after the transport accepts; handlers, event tables and the closed event are unchanged |
| WebSocket.Close | build/lib/zynk/websocket.py:139-145 | a connected socket is closed with the given code and reason and becomes DISCONNECTED with the closed event set; in any other state nothing changes |
| WebSocket.CloseIdempotent | build/lib/zynk/websocket.py:139-145 | closing twice is closing once |
| WebSocket.Send | build/lib/zynk/websocket.py:147-171 | raises `Cannot send on disconnected WebSocket` exactly when not connected; otherwise sends one frame that reads back as the event and the serialised data, and changes nothing else |
| WebSocket.SendOnlyWhileConnected | build/lib/zynk/websocket.py:115-159 | sending fails on a new connection, succeeds after accept, and fails after close |
| WebSocket.On | build/lib/zynk/websocket.py:191-196 | registers the handler for the event, leaves the other events' handlers alone, and changes nothing else |
| WebSocket.OnLastWins | build/lib/zynk/websocket.py:194 | the last handler registered for an event replaces the earlier one |
| WebSocket.HandleMessage | build/lib/zynk/websocket.py:200-229 | a handler is called exactly when the message parses, its event has a handler, and a model-typed event's object data validates; it gets the built model exactly when the event is model-typed and the data an object, and the raw data otherwise; every failure is swallowed |
| WebSocket.OnThenDispatch | build/lib/zynk/websocket.py:191-222 | after `on(event)`, a message for that event reaches the new handler with its data |
| WebSocket.Listen | build/lib/zynk/websocket.py:231-254 | accepts unless connected; handles text frames in order until a disconnect, a receive error or a handler's close, which sends the code and reason that handler gave; always ends DISCONNECTED with the closed event set |
| WebSocket.NeverError | build/lib/zynk/websocket.py:115-145 | no operation moves a connection into the ERROR status |

## Left out

- File writing, the output directory and the `_internal.ts` runtime module (pybridge/generator.py:486-496, 553-554) are left out because they are I/O. The runtime's two key converters are modelled on one key each.
- The header's `datetime.now()` timestamp is a parameter of `Generator.Document`.
- Generator.Document: the blank lines and section comments between the header, the interfaces and the commands are stated only through `Generator.DocumentInOrder`, which says where each interface and stub text sits, not what lies between them.
- Logging and the "No commands registered" warning are left out: they have no effect on results.
- Python reflection is replaced by the explicit `TypeHint` tree, `ModelDef` and `FunctionSig`. This covers `get_type_hints`, `inspect.signature`, `get_origin`, `get_args`, `issubclass(BaseModel)` and `model_fields`.
- A failing `get_type_hints` in the decorator is modelled as an empty hint map supplied by the caller.
- Emit.StubReturn: a stream's payload type is taken from the hints read once, when the command is decorated (pybridge/registry.py:166-169). The generator reads the hints a second time (pybridge/generator.py:236-243); that second read is not modelled separately. If the first read failed and the second succeeds, the program prints the resolved payload type where the model prints `unknown`. If that type is a model no other member references, the program's output then names an interface it never declares; Generator.NoDanglingReferences does not cover this case.
- `asyncio.iscoroutinefunction`, `fn.__module__` and `fn.__doc__` are fields of `FunctionSig`.
- The async wrapper the decorator returns (pybridge/registry.py:219-229) is not stored in the registry, so the bridge never calls it; it is modelled only as the intended execution path of `Dispatch.ExecuteCommandIntended`. Calls made through the decorated name from other Python code are left out.
- A plain function that returns an awaitable object is not modelled: `Dispatch.Awaited` treats every plain function's return value as not awaitable.
- `get_all_commands` and `get_all_models` are plain copies and have no members of their own.
- The singleton `CommandRegistry` instance is left out. The registry is passed as a value.
- Pydantic `model_dump` is left out, as are validation and its error details. A model value carries its dump, and WebSocket validation is a parameter.
- `json.loads` and `json.dumps` are left out. Requests and WebSocket frames are modelled as already parsed JSON values, so malformed text is a separate case.
- A JSON request body that is not an object is not modelled. The route assumes a dict, as the code does.
- FastAPI, uvicorn, CORS, the `/commands` listing and the server runner are left out.
- `asyncio.create_task` scheduling is left out. `Dispatch.InitChannel` returns the opened channel, and the command's run is `Dispatch.ExecuteChannelCommand`.
- pybridge/channel.py is not part of this model. Channel creation, queueing, ids and SSE framing are left out; channel ids are a parameter, and a channel's queued messages are a sequence.
- pybridge/errors.py is not part of this model. Error classes are the `Dispatch.BridgeError` constructors; their `to_dict` bodies and codes other than those written in bridge.py are left out.
- `channel.close()` or `channel.send_error()` raising inside `_execute_channel_command` is left out.
- The WebSocket transport (`accept`, `close`, `send_text`, `receive_text`) is modelled as a log of calls that always succeed. A transport call that raises is left out.
- `wait_closed` is modelled only by the `closed` flag it waits on.
- The `@message` decorator and `MessageHandlerInfo` (build/lib/zynk/websocket.py:261-275) are left out: the registry that stores them is not part of this model.
- WebSocket.Listen: a handler's effects other than closing the connection (sends, registering handlers) are left out. Handlers are identified by name, and `closes` says which calls close and with which code and reason.
- WebSocket.HandleMessage: a handler's own exception is swallowed, so the result is `Dispatched` whether or not the handler raised.
- Model classes are keyed by their `__name__`. Two distinct classes with the same name cannot be expressed; the program keeps the first one it meets and never walks the second's fields (pybridge/registry.py:95, 130), so one generated interface stands for both.
- ASCII is assumed for `str.title` and for the runtime's `[A-Z]` and `[a-z]` classes. Unicode case mapping is left out.

## Findings

The model follows the code as written: the emitted client carries the type text `_type_to_ts` writes, and the bridge awaits whatever the registry stores. For each row the corrected member stands beside the as-written one and carries the intended property.

| source | as written | input that shows it | evidently intended | confidence | as-written member | corrected member |
|---|---|---|---|---|---|---|
| pybridge/generator.py:105-108 | a list (or set) element type is written before `[]` without parentheses | `list[Optional[str]]` becomes the union of `string` and `null[]` in TypeScript's reading | the parenthesised union followed by `[]`, an array of nullable strings | not executed | TypeMapping.AsWrittenMisreadsOptionalElements | TypeMapping.TsTypeReadsAsIntended |
| pybridge/bridge.py:300 | the registry stores the decorated function itself (pybridge/registry.py:207) and the bridge awaits its result; the decorator's executor wrapper (pybridge/registry.py:219-229) is never stored | `def ping() -> str: return "pong"`, a plain command as documented at pybridge/registry.py:150-152, is answered 400 `Invalid arguments: object str can't be used in 'await' expression`; a plain streaming command ends with an error frame instead of a close (bridge.py:341) | a plain command runs through the executor and answers `{"result": "pong"}` | not executed | Dispatch.PlainPingRejected | Dispatch.ExecuteCommandIntended |
