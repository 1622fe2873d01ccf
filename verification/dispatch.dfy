/** The bridge's request handling, with the command functions, Pydantic and the
    channel machinery as parameters: binding a request body to a command's
    parameters, normalising the result, classifying failures, running a streaming
    command, opening a channel, draining a channel to the client, and the HTTP
    status every failure is answered with. */
module Dispatch {
  import opened Common
  import opened TypeHints
  import opened Registry

  /** A JSON-like value as the bridge sees it. A scalar (`str`, `int`, `float`,
      `bool` or `None`) carries its Python class name; a Pydantic model instance
      carries what `model_dump()` makes of it, which holds no model. */
  datatype Value =
    | Scalar(pyType: string, repr: string)
    | ListV(items: seq<Value>)
    | DictV(entries: map<string, Value>)
    | ModelV(cls: string, dumped: Value)
    | ChannelV(id: string)

  /** The failures of `pybridge.errors`: their class is what decides the status. */
  datatype BridgeError =
    | ValidationError(message: string)
    | CommandNotFoundError(command: string)
    | CommandExecutionError(message: string)
    | InternalError(message: string)

  /** How a command function call ends: with a value, or by raising; a `TypeError`
      is told apart from every other exception. */
  datatype ExcKind = TypeErrorKind | OtherKind
  datatype Outcome = Returned(value: Value) | Raised(kind: ExcKind, message: string)

  // ---------------------------------------------------------------- argument binding

  function ParamNames(ps: seq<(string, TypeHint)>): set<string> {
    set i | 0 <= i < |ps| :: ps[i].0
  }

  /** The keyword arguments built from a request body: a declared parameter is bound
      when the body has it; other keys are dropped and missing ones left out. */
  function Bind(ps: seq<(string, TypeHint)>, args: map<string, Value>): (r: map<string, Value>)
    ensures r.Keys == ParamNames(ps) * args.Keys
    ensures forall k :: k in r ==> r[k] == args[k]
  {
    map k | k in ParamNames(ps) && k in args :: args[k]
  }

  // ---------------------------------------------------------------- result normalisation

  /** `model_dump()` leaves no model behind. */
  predicate NoModels(v: Value)
    decreases v
  {
    match v
    case ModelV(_, _) => false
    case ListV(items) => forall i :: 0 <= i < |items| ==> NoModels(items[i])
    case DictV(entries) => forall k :: k in entries ==> NoModels(entries[k])
    case _ => true
  }

  /** A value the command can return: its models dump to model-free values. */
  predicate Dumpable(v: Value)
    decreases v
  {
    match v
    case ModelV(_, d) => NoModels(d)
    case ListV(items) => forall i :: 0 <= i < |items| ==> Dumpable(items[i])
    case DictV(entries) => forall k :: k in entries ==> Dumpable(entries[k])
    case _ => true
  }

  function DumpItem(v: Value): Value {
    if v.ModelV? then v.dumped else v
  }

  /** The result a command sends back: a model is dumped, a list has each model
      element dumped, and anything else is passed through untouched. */
  function Normalize(v: Value): (r: Value)
    ensures v.ModelV? ==> r == v.dumped
    ensures v.ListV? ==> r.ListV? && |r.items| == |v.items|
    ensures v.ListV? ==> forall i :: 0 <= i < |v.items| ==> r.items[i] == (if v.items[i].ModelV? then v.items[i].dumped else v.items[i])
    ensures !v.ModelV? && !v.ListV? ==> r == v
  {
    match v
    case ModelV(_, d) => d
    case ListV(items) => ListV(seq(|items|, i requires 0 <= i < |items| => DumpItem(items[i])))
    case _ => v
  }

  /** After normalisation neither the result nor, for a list, any element of it is
      still a model. */
  lemma NormalizeUnwraps(v: Value)
    requires Dumpable(v)
    ensures !Normalize(v).ModelV?
    ensures Normalize(v).ListV? ==> forall i :: 0 <= i < |Normalize(v).items| ==> !Normalize(v).items[i].ModelV?
  {
    var r := Normalize(v);
    if v.ModelV? {
      assert NoModels(v.dumped);
    } else if v.ListV? {
      forall i | 0 <= i < |r.items| ensures !r.items[i].ModelV? {
        if v.items[i].ModelV? {
          assert Dumpable(v.items[i]);
          assert NoModels(v.items[i].dumped);
        }
      }
    }
  }

  /** Normalising twice changes nothing more. */
  lemma NormalizeIdempotent(v: Value)
    requires Dumpable(v)
    ensures Normalize(Normalize(v)) == Normalize(v)
  {
    var r := Normalize(v);
    NormalizeUnwraps(v);
    if r.ListV? {
      var rr := Normalize(r);
      assert |rr.items| == |r.items|;
      forall i | 0 <= i < |r.items| ensures rr.items[i] == r.items[i] {
        assert !r.items[i].ModelV?;
      }
    }
  }

  /** Models nested deeper than a list element, such as inside a dict, are not dumped. */
  lemma NestedModelsKept(k: string, inner: Value)
    ensures Normalize(DictV(map[k := ModelV("M", inner)])) == DictV(map[k := ModelV("M", inner)])
    ensures Normalize(ListV([ListV([ModelV("M", inner)])])) == ListV([ListV([ModelV("M", inner)])])
  {
    var l := ListV([ListV([ModelV("M", inner)])]);
    assert Normalize(l).items[0] == l.items[0];
  }

  // ---------------------------------------------------------------- command execution

  /** The class name Python prints for a value. */
  function TypeName(v: Value): string {
    match v
    case Scalar(t, _) => t
    case ListV(_) => "list"
    case DictV(_) => "dict"
    case ModelV(cls, _) => cls
    case ChannelV(_) => "Channel"
  }

  /** The `TypeError` text of `await` on a value that is not awaitable. */
  function AwaitError(v: Value): string {
    "object " + TypeName(v) + " can't be used in 'await' expression"
  }

  /** `await cmd.func(**kwargs)`. The registry holds the decorated function itself,
      not the decorator's wrapper. An `async def` command runs to its outcome when
      awaited. A plain function has already run when `await` sees its result, and
      that result is not awaitable: a plain function that returns raises a
      `TypeError` there. */
  function Awaited(isAsync: bool, o: Outcome): Outcome {
    if !isAsync && o.Returned? then Raised(TypeErrorKind, AwaitError(o.value)) else o
  }

  /** The `try` around the call: the value is normalised, a `TypeError` becomes a
      ValidationError, and any other exception a CommandExecutionError carrying the
      exception's text. */
  function Finish(o: Outcome): Result<Value, BridgeError> {
    match o
    case Returned(v) => Ok(Normalize(v))
    case Raised(TypeErrorKind, m) => Err(ValidationError("Invalid arguments: " + m))
    case Raised(OtherKind, m) => Err(CommandExecutionError(m))
  }

  /** `_execute_command` as written: the command is called with the bound arguments
      and the result awaited. Only an `async def` command can succeed. */
  function ExecuteCommand(cmd: CommandInfo, args: map<string, Value>, call: map<string, Value> -> Outcome): (r: Result<Value, BridgeError>)
    ensures r.Ok? <==> cmd.isAsync && call(Bind(cmd.params, args)).Returned?
    ensures r.Ok? ==> r.value == Normalize(call(Bind(cmd.params, args)).value)
    ensures !cmd.isAsync && call(Bind(cmd.params, args)).Returned?
      ==> r == Err(ValidationError("Invalid arguments: " + AwaitError(call(Bind(cmd.params, args)).value)))
    ensures call(Bind(cmd.params, args)).Raised? && call(Bind(cmd.params, args)).kind == TypeErrorKind
      ==> r == Err(ValidationError("Invalid arguments: " + call(Bind(cmd.params, args)).message))
    ensures call(Bind(cmd.params, args)).Raised? && call(Bind(cmd.params, args)).kind == OtherKind
      ==> r == Err(CommandExecutionError(call(Bind(cmd.params, args)).message))
  {
    Finish(Awaited(cmd.isAsync, call(Bind(cmd.params, args))))
  }

  /** `_execute_command` as evidently intended: a plain function is awaited through
      the executor, as the decorator's wrapper does (pybridge/registry.py:219-229),
      so a plain and an `async def` command end alike. */
  function ExecuteCommandIntended(cmd: CommandInfo, args: map<string, Value>, call: map<string, Value> -> Outcome): (r: Result<Value, BridgeError>)
    ensures r.Ok? <==> call(Bind(cmd.params, args)).Returned?
    ensures r.Ok? ==> r.value == Normalize(call(Bind(cmd.params, args)).value)
    ensures r.Err? ==> (r.error.ValidationError? <==> call(Bind(cmd.params, args)).kind == TypeErrorKind)
    ensures r.Err? && r.error.ValidationError? ==> r.error.message == "Invalid arguments: " + call(Bind(cmd.params, args)).message
    ensures r.Err? && !r.error.ValidationError? ==> r.error == CommandExecutionError(call(Bind(cmd.params, args)).message)
  {
    Finish(call(Bind(cmd.params, args)))
  }

  /** As written, a plain command that returns fails with a validation error on
      `await`, where the intended bridge would answer with its value. */
  lemma SyncCommandFailsOnAwait(cmd: CommandInfo, args: map<string, Value>, call: map<string, Value> -> Outcome)
    requires !cmd.isAsync && call(Bind(cmd.params, args)).Returned?
    ensures ExecuteCommand(cmd, args, call)
      == Err(ValidationError("Invalid arguments: " + AwaitError(call(Bind(cmd.params, args)).value)))
    ensures ExecuteCommandIntended(cmd, args, call) == Ok(Normalize(call(Bind(cmd.params, args)).value))
  {
  }

  /** As written and as intended agree on every `async def` command and on every
      call that raises; the intended result does not depend on how the command was
      declared. */
  lemma ExecuteAgreesWhenAwaitable(cmd: CommandInfo, args: map<string, Value>, call: map<string, Value> -> Outcome, isAsync: bool)
    ensures cmd.isAsync || call(Bind(cmd.params, args)).Raised?
      ==> ExecuteCommand(cmd, args, call) == ExecuteCommandIntended(cmd, args, call)
    ensures ExecuteCommandIntended(cmd.(isAsync := isAsync), args, call) == ExecuteCommandIntended(cmd, args, call)
  {
  }

  /** `def ping() -> str: return "pong"`, a plain command as the decorator's
      documentation shows them, is answered 400 `Invalid arguments: object str can't
      be used in 'await' expression` instead of `{"result": "pong"}`. */
  lemma PlainPingRejected()
    ensures var reg := Registry(map["ping" := Ping], map[]);
      ExecuteRoute(reg, "ping", EmptyBody, Pong)
        == Err(ValidationError("Invalid arguments: " + AwaitError(Scalar("str", "pong"))))
      && TypeName(Scalar("str", "pong")) == "str"
      && ErrorStatus(ExecuteRoute(reg, "ping", EmptyBody, Pong).error) == 400
      && ExecuteCommandIntended(Ping, map[], Pong) == Ok(Scalar("str", "pong"))
  {
    var reg := Registry(map["ping" := Ping], map[]);
    assert GetCommand(reg, "ping") == Some(Ping);
    assert ParseBody(EmptyBody) == Ok(map[]);
    assert Pong(Bind(Ping.params, map[])) == Returned(Scalar("str", "pong"));
    SyncCommandFailsOnAwait(Ping, map[], Pong);
  }

  /** The plain command `def ping() -> str`. */
  const Ping := CommandInfo("ping", [], Some(PrimT(Str)), false, None, "app", false, None)

  /** Its body: `return "pong"`. */
  function Pong(kwargs: map<string, Value>): Outcome {
    Returned(Scalar("str", "pong"))
  }

  /** What a streaming command did: the values it sent on its channel, then how it ended. */
  datatype StreamRun = StreamRun(sent: seq<Value>, end: Outcome)

  /** The channel operations a streaming command leaves behind. */
  datatype ChannelOp = Send(value: Value) | Close | SendError(message: string)

  /** The sends, then a close when the command ended normally and an error frame
      with the exception's text when it raised. */
  function ChannelOps(sent: seq<Value>, end: Outcome): seq<ChannelOp> {
    seq(|sent|, i requires 0 <= i < |sent| => Send(sent[i])) + [if end.Returned? then Close else SendError(end.message)]
  }

  /** `_execute_channel_command` as written: the command gets the bound arguments
      plus the channel and its result is awaited; a normal end closes the channel,
      an exception of any kind sends its text as an error frame, and nothing is
      raised to the caller. A plain function, having sent its messages, fails on
      `await`. */
  function ExecuteChannelCommand(cmd: CommandInfo, args: map<string, Value>, channelId: string,
    call: map<string, Value> -> StreamRun): (r: seq<ChannelOp>)
    ensures |r| >= 1
    ensures forall i :: 0 <= i < |r| - 1 ==> r[i].Send?
    ensures r[|r| - 1].Close? <==> cmd.isAsync && call(BindWithChannel(cmd.params, args, channelId)).end.Returned?
    ensures r[|r| - 1].SendError? <==> !(cmd.isAsync && call(BindWithChannel(cmd.params, args, channelId)).end.Returned?)
    ensures call(BindWithChannel(cmd.params, args, channelId)).end.Raised?
      ==> r[|r| - 1] == SendError(call(BindWithChannel(cmd.params, args, channelId)).end.message)
    ensures !cmd.isAsync && call(BindWithChannel(cmd.params, args, channelId)).end.Returned?
      ==> r[|r| - 1] == SendError(AwaitError(call(BindWithChannel(cmd.params, args, channelId)).end.value))
  {
    var run := call(BindWithChannel(cmd.params, args, channelId));
    ChannelOps(run.sent, Awaited(cmd.isAsync, run.end))
  }

  /** `_execute_channel_command` as evidently intended: a plain function run through
      the executor closes the channel like an `async def` one. */
  function ExecuteChannelCommandIntended(cmd: CommandInfo, args: map<string, Value>, channelId: string,
    call: map<string, Value> -> StreamRun): (r: seq<ChannelOp>)
    ensures |r| >= 1
    ensures r[|r| - 1].Close? <==> call(BindWithChannel(cmd.params, args, channelId)).end.Returned?
    ensures r[|r| - 1].SendError? <==> call(BindWithChannel(cmd.params, args, channelId)).end.Raised?
  {
    var run := call(BindWithChannel(cmd.params, args, channelId));
    ChannelOps(run.sent, run.end)
  }

  /** As written, a plain streaming command that returns ends its stream with an
      error frame, not with a close; only its last frame differs from the intended
      run. */
  lemma SyncStreamEndsInError(cmd: CommandInfo, args: map<string, Value>, channelId: string, call: map<string, Value> -> StreamRun)
    requires !cmd.isAsync && call(BindWithChannel(cmd.params, args, channelId)).end.Returned?
    ensures var r := ExecuteChannelCommand(cmd, args, channelId, call);
      var s := ExecuteChannelCommandIntended(cmd, args, channelId, call);
      |r| == |s| && r[..|r| - 1] == s[..|s| - 1] && r[|r| - 1].SendError? && s[|s| - 1] == Close
  {
  }

  /** `{"channel": channel}` overlaid with the bound arguments. */
  function BindWithChannel(ps: seq<(string, TypeHint)>, args: map<string, Value>, channelId: string): (r: map<string, Value>)
    ensures r.Keys == Bind(ps, args).Keys + {"channel"}
    ensures forall k :: k in Bind(ps, args) ==> r[k] == args[k]
    ensures "channel" !in ParamNames(ps) ==> r["channel"] == ChannelV(channelId)
  {
    map["channel" := ChannelV(channelId)] + Bind(ps, args)
  }

  /** The values a streaming command sent all reach the channel, in order, before
      its one closing or error frame. */
  lemma StreamKeepsSends(cmd: CommandInfo, args: map<string, Value>, channelId: string, call: map<string, Value> -> StreamRun)
    ensures var r := ExecuteChannelCommand(cmd, args, channelId, call);
      var run := call(BindWithChannel(cmd.params, args, channelId));
      |r| == |run.sent| + 1 && forall i :: 0 <= i < |run.sent| ==> r[i] == Send(run.sent[i])
  {
  }

  // ---------------------------------------------------------------- routes

  /** A request body: empty (read as `{}`), a JSON object, or text that does not parse. */
  datatype Body = EmptyBody | JsonBody(entries: map<string, Value>) | Malformed(error: string)

  function ParseBody(b: Body): (r: Result<map<string, Value>, BridgeError>)
    ensures b.EmptyBody? ==> r == Ok(map[])
    ensures b.JsonBody? ==> r == Ok(b.entries)
    ensures b.Malformed? ==> r == Err(ValidationError("Invalid JSON body: " + b.error))
  {
    match b
    case EmptyBody => Ok(map[])
    case JsonBody(m) => Ok(m)
    case Malformed(e) => Err(ValidationError("Invalid JSON body: " + e))
  }

  /** `POST /command/{name}`: an unknown name is not found, then the body is read,
      then the command runs; a success is wrapped as `{"result": ...}`. */
  function ExecuteRoute(reg: Registry, name: string, body: Body, call: map<string, Value> -> Outcome): (r: Result<Value, BridgeError>)
    ensures name !in reg.commands ==> r == Err(CommandNotFoundError(name))
    ensures name in reg.commands && body.Malformed? ==> r == Err(ValidationError("Invalid JSON body: " + body.error))
    ensures r.Ok? ==> name in reg.commands && r.value.DictV? && r.value.entries.Keys == {"result"}
    ensures name in reg.commands && !body.Malformed? ==>
      var cmd, args := reg.commands[name], ParseBody(body).value;
      (r.Ok? <==> ExecuteCommand(cmd, args, call).Ok?)
      && (r.Ok? ==> r.value.entries["result"] == ExecuteCommand(cmd, args, call).value)
      && (r.Err? ==> r.error == ExecuteCommand(cmd, args, call).error)
    ensures r.Ok? <==> (name in reg.commands && !body.Malformed? && reg.commands[name].isAsync
                        && call(Bind(reg.commands[name].params, ParseBody(body).value)).Returned?)
    ensures r.Ok? ==> r.value.entries["result"] == Normalize(call(Bind(reg.commands[name].params, ParseBody(body).value)).value)
  {
    match GetCommand(reg, name)
    case None => Err(CommandNotFoundError(name))
    case Some(cmd) =>
      match ParseBody(body)
      case Err(e) => Err(e)
      case Ok(args) =>
        match ExecuteCommand(cmd, args, call)
        case Err(e) => Err(e)
        case Ok(v) => Ok(DictV(map["result" := v]))
  }

  /** What opening a channel yields: its id, returned as `{"channelId": id}`, and the
      background run of the command on it. */
  datatype Opened = Opened(channelId: string, cmd: CommandInfo, args: map<string, Value>)

  /** A channel message as the stream sees it: its event name and its data. */
  datatype Message = Message(event: string, data: Value)

  predicate Terminal(m: Message) {
    m.event == "close" || m.event == "error"
  }

  /** The SSE messages a run's channel operations become; `frame` is the channel's
      own encoding (pybridge/channel.py is not part of this model). */
  function Frames(ops: seq<ChannelOp>, frame: ChannelOp -> Message): (r: seq<Message>)
    ensures |r| == |ops| && forall i :: 0 <= i < |ops| ==> r[i] == frame(ops[i])
  {
    seq(|ops|, i requires 0 <= i < |ops| => frame(ops[i]))
  }

  /** Keys of the request body that name no parameter of the command change
      nothing: the route's answer depends only on the declared parameters. */
  lemma RouteIgnoresUndeclaredKeys(reg: Registry, name: string, m: map<string, Value>, k: string, v: Value,
    call: map<string, Value> -> Outcome)
    requires name in reg.commands && k !in ParamNames(reg.commands[name].params)
    ensures ExecuteRoute(reg, name, JsonBody(m[k := v]), call) == ExecuteRoute(reg, name, JsonBody(m), call)
  {
    var ps := reg.commands[name].params;
    assert Bind(ps, m[k := v]) == Bind(ps, m);
  }

  /** `POST /channel/{name}`: an unknown name is not found, a command without a
      channel parameter is refused, a bad body is refused; otherwise a channel with
      the fresh id is opened and the command started on it. */
  function InitChannel(reg: Registry, name: string, body: Body, freshId: string): (r: Result<Opened, BridgeError>)
    ensures name !in reg.commands ==> r == Err(CommandNotFoundError(name))
    ensures name in reg.commands && !reg.commands[name].hasChannel
      ==> r == Err(ValidationError("Command '" + name + "' does not support channels"))
    ensures r.Ok? <==> name in reg.commands && reg.commands[name].hasChannel && !body.Malformed?
    ensures name in reg.commands && reg.commands[name].hasChannel && body.Malformed?
      ==> r == Err(ValidationError("Invalid JSON body: " + body.error))
    ensures r.Ok? ==> r.value.channelId == freshId && r.value.cmd == reg.commands[name]
    ensures r.Ok? ==> r.value.args == ParseBody(body).value
  {
    match GetCommand(reg, name)
    case None => Err(CommandNotFoundError(name))
    case Some(cmd) =>
      if !cmd.hasChannel then Err(ValidationError("Command '" + name + "' does not support channels"))
      else
        match ParseBody(body)
        case Err(e) => Err(e)
        case Ok(args) => Ok(Opened(freshId, cmd, args))
  }


  /** A channel opened for a streaming command carries, once the command has run,
      its sends followed by exactly one close or error; a client that stays on the
      stream receives all of them, ending with that terminal frame. */
  lemma OpenedChannelStreamsAll(reg: Registry, name: string, body: Body, freshId: string,
    call: map<string, Value> -> StreamRun, frame: ChannelOp -> Message, forwarded: seq<Message>)
    requires InitChannel(reg, name, body, freshId).Ok?
    requires forall v :: !Terminal(frame(Send(v)))
    requires Terminal(frame(Close)) && forall m :: Terminal(frame(SendError(m)))
    requires var o := InitChannel(reg, name, body, freshId).value;
      var msgs := Frames(ExecuteChannelCommand(o.cmd, o.args, o.channelId, call), frame);
      |forwarded| <= |msgs| && forwarded == msgs[..|forwarded|]
      && (forall i :: 0 <= i < |forwarded| - 1 ==> !Terminal(forwarded[i]))
      && (|forwarded| < |msgs| ==> |forwarded| > 0 && Terminal(forwarded[|forwarded| - 1]))
    ensures var o := InitChannel(reg, name, body, freshId).value;
      var msgs := Frames(ExecuteChannelCommand(o.cmd, o.args, o.channelId, call), frame);
      forwarded == msgs && Terminal(msgs[|msgs| - 1])
  {
    var o := InitChannel(reg, name, body, freshId).value;
    var ops := ExecuteChannelCommand(o.cmd, o.args, o.channelId, call);
    var msgs := Frames(ops, frame);
    var last := |msgs| - 1;
    assert Terminal(msgs[last]) by {
      assert msgs[last] == frame(ops[last]);
    }
    forall j | 0 <= j < last ensures !Terminal(msgs[j]) {
      assert ops[j].Send? && msgs[j] == frame(Send(ops[j].value));
    }
    DrainStopsAtFirstTerminal(msgs, last, forwarded);
    assert msgs[..last + 1] == msgs;
  }

  /** `GET /channel/stream/{id}` once the channel exists: messages are forwarded in
      order up to and including the first `close` or `error`; the client may go away
      after `stayFor` frames. Whichever way the stream ends, the channel is removed. */
  method Drain(messages: seq<Message>, stayFor: Option<nat>) returns (forwarded: seq<Message>, removed: bool)
    ensures |forwarded| <= |messages| && forwarded == messages[..|forwarded|]
    ensures forall i :: 0 <= i < |forwarded| - 1 ==> !Terminal(forwarded[i])
    ensures |forwarded| < |messages| ==>
      (stayFor.Some? && |forwarded| == stayFor.value) || (|forwarded| > 0 && Terminal(forwarded[|forwarded| - 1]))
    ensures stayFor.Some? ==> |forwarded| <= stayFor.value
    ensures removed
  {
    forwarded := [];
    var i := 0;
    while i < |messages| && (stayFor.None? || i < stayFor.value)
      invariant 0 <= i <= |messages|
      invariant forwarded == messages[..i]
      invariant forall j :: 0 <= j < i ==> !Terminal(messages[j])
      invariant stayFor.Some? ==> i <= stayFor.value
    {
      forwarded := forwarded + [messages[i]];
      if Terminal(messages[i]) {
        break;
      }
      i := i + 1;
    }
    removed := true;
  }

  /** A drained stream that ran to a terminal frame forwarded exactly the first one. */
  lemma DrainStopsAtFirstTerminal(messages: seq<Message>, k: nat, forwarded: seq<Message>)
    requires k < |messages| && Terminal(messages[k]) && forall j :: 0 <= j < k ==> !Terminal(messages[j])
    requires |forwarded| <= |messages| && forwarded == messages[..|forwarded|]
    requires forall i :: 0 <= i < |forwarded| - 1 ==> !Terminal(forwarded[i])
    requires |forwarded| < |messages| ==> |forwarded| > 0 && Terminal(forwarded[|forwarded| - 1])
    ensures forwarded == messages[..k + 1]
  {
  }

  /** `GET /channel/stream/{id}` for an id with no channel. */
  function StreamMissing(channelId: string): (r: (int, string))
    ensures r.0 == 404
  {
    (404, "Channel '" + channelId + "' not found")
  }

  // ---------------------------------------------------------------- error responses

  /** The status a BridgeError is answered with: not-found is 404, an internal
      error 500, any other bridge error 400. */
  function ErrorStatus(e: BridgeError): (r: int)
    ensures r == 404 <==> e.CommandNotFoundError?
    ensures r == 500 <==> e.InternalError?
    ensures r == 400 <==> (e.ValidationError? || e.CommandExecutionError?)
  {
    if e.CommandNotFoundError? then 404 else if e.InternalError? then 500 else 400
  }

  /** Failures outside the bridge's own errors: Pydantic's validation error, and any
      other exception. */
  datatype Failure = Bridge(error: BridgeError) | PydanticInvalid | Unhandled(message: string)

  datatype Response = Response(status: int, code: Option<string>, message: Option<string>)

  /** The exception handlers: a bridge error by class (its body is `to_dict()`, not
      modelled), a Pydantic error 400 with `VALIDATION_ERROR`, any other 500 with
      `INTERNAL_ERROR`, whose text is shown only in debug mode. */
  function Respond(f: Failure, debug: bool): (r: Response)
    ensures f.Bridge? ==> r.status == ErrorStatus(f.error)
    ensures f.PydanticInvalid? ==> r == Response(400, Some("VALIDATION_ERROR"), Some("Request validation failed"))
    ensures f.Unhandled? ==> r.status == 500 && r.code == Some("INTERNAL_ERROR")
    ensures f.Unhandled? ==> r.message == Some(if debug then f.message else "An internal error occurred")
  {
    match f
    case Bridge(e) => Response(ErrorStatus(e), None, None)
    case PydanticInvalid => Response(400, Some("VALIDATION_ERROR"), Some("Request validation failed"))
    case Unhandled(m) => Response(500, Some("INTERNAL_ERROR"), Some(if debug then m else "An internal error occurred"))
  }

  /** Only an unknown command is answered 404; a known command that fails, whether
      its arguments are wrong or its code raises, is answered 400, never 500. */
  lemma RouteStatuses(reg: Registry, name: string, body: Body, call: map<string, Value> -> Outcome)
    ensures ExecuteRoute(reg, name, body, call).Err? ==>
      var s := ErrorStatus(ExecuteRoute(reg, name, body, call).error);
      (s == 404 <==> name !in reg.commands) && (name in reg.commands ==> s == 400)
  {
  }

  /** The debug flag only ever changes the message of an unhandled exception. */
  lemma DebugOnlyAffectsMessage(f: Failure)
    ensures Respond(f, true).status == Respond(f, false).status
    ensures Respond(f, true).code == Respond(f, false).code
    ensures !f.Unhandled? ==> Respond(f, true) == Respond(f, false)
  {
  }
}
