/** The WebSocket side of the bridge: the `{"event", "data"}` message envelope, the
    event-name tables read off the server and client event classes, and one
    connection's status machine with its handler table. The FastAPI transport
    becomes a log of the calls made on it, `json.loads` becomes an already parsed
    value, and Pydantic validation becomes a parameter. */
module WebSocket {
  import opened Common
  import opened TypeHints

  // ---------------------------------------------------------------- the envelope

  /** A JSON document as `json.loads` returns it. Numbers keep their text. */
  datatype Json =
    | JNull
    | JBool(b: bool)
    | JNum(repr: string)
    | JStr(s: string)
    | JArr(items: seq<Json>)
    | JObj(fields: map<string, Json>)

  /** `WebSocketMessage`: the dataclass does not check that `event` is a string,
      so a parsed message may carry any JSON value there. */
  datatype Envelope = Envelope(event: Json, data: Json)

  const DefaultEvent: Json := JStr("message")
  const DefaultData: Json := JObj(map[])

  /** `dict.get(key, default)`. */
  function Lookup(fields: map<string, Json>, key: string, default: Json): Json {
    if key in fields then fields[key] else default
  }

  /** `to_json`, before `json.dumps` turns the object into text. */
  function ToJson(event: string, data: Json): (r: Json)
    ensures r.JObj? && r.fields.Keys == {"event", "data"}
  {
    JObj(map["event" := JStr(event), "data" := data])
  }

  /** `from_json`, after `json.loads`: anything but an object has no `.get` and
      raises (`None`); a missing `event` reads as "message" and a missing `data` as
      an empty object; other keys are ignored. */
  function FromJson(parsed: Json): (r: Option<Envelope>)
    ensures r.Some? <==> parsed.JObj?
    ensures r.Some? && "event" in parsed.fields ==> r.value.event == parsed.fields["event"]
    ensures r.Some? && "event" !in parsed.fields ==> r.value.event == JStr("message")
    ensures r.Some? && "data" in parsed.fields ==> r.value.data == parsed.fields["data"]
    ensures r.Some? && "data" !in parsed.fields ==> r.value.data == JObj(map[])
  {
    if parsed.JObj? then
      Some(Envelope(Lookup(parsed.fields, "event", DefaultEvent),
                    Lookup(parsed.fields, "data", DefaultData)))
    else None
  }

  /** Reading back what `to_json` wrote gives the same event and data. */
  lemma EnvelopeRoundTrip(event: string, data: Json)
    ensures FromJson(ToJson(event, data)) == Some(Envelope(JStr(event), data))
  {
  }

  /** An empty object reads as a "message" event with empty data. */
  lemma EmptyObjectDefaults()
    ensures FromJson(JObj(map[])) == Some(Envelope(JStr("message"), JObj(map[])))
  {
  }

  /** Only the two envelope keys matter: dropping every other key changes nothing. */
  lemma ExtraKeysIgnored(fields: map<string, Json>)
    ensures FromJson(JObj(fields)) == FromJson(JObj(map k | k in fields && k in {"event", "data"} :: fields[k]))
  {
  }

  // ---------------------------------------------------------------- event tables

  /** An event's annotation: a resolved type, or the raw string a postponed
      annotation stays when `get_type_hints` could not resolve it. */
  datatype EventType = Resolved(hint: TypeHint) | Unresolved(text: string)

  /** An events class as `_extract_event_types` sees it: `hints` is `None` when
      `get_type_hints` raised, `annotations` is `None` when the class has no
      `__annotations__`. */
  datatype EventsClass = EventsClass(hints: Option<map<string, EventType>>,
                                     annotations: Option<map<string, EventType>>)

  predicate Private(name: string) {
    |name| > 0 && name[0] == '_'
  }

  function HintsOf(cls: Option<EventsClass>): map<string, EventType> {
    if cls.Some? then cls.value.hints.GetOr(map[]) else map[]
  }

  function AnnotationsOf(cls: Option<EventsClass>): map<string, EventType> {
    if cls.Some? then cls.value.annotations.GetOr(map[]) else map[]
  }

  /** The event table a class declares: its public names, each with its resolved
      hint when there is one and its raw annotation otherwise. */
  function EventTypes(cls: Option<EventsClass>): map<string, EventType> {
    var hints, annotations := HintsOf(cls), AnnotationsOf(cls);
    map n | n in hints.Keys + annotations.Keys && !Private(n) :: if n in hints then hints[n] else annotations[n]
  }

  /** `_extract_event_types`: every public name of the resolved hints, then every
      public raw annotation the hints did not already supply. */
  method ExtractEventTypes(cls: Option<EventsClass>) returns (r: map<string, EventType>)
    ensures r == EventTypes(cls)
    ensures cls.None? ==> r == map[]
    ensures forall n :: n in r ==> !Private(n)
    ensures forall n :: n in r <==> !Private(n) && (n in HintsOf(cls) || n in AnnotationsOf(cls))
    ensures forall n :: n in r && n in HintsOf(cls) ==> r[n] == HintsOf(cls)[n]
    ensures forall n :: n in r && n !in HintsOf(cls) ==> r[n] == AnnotationsOf(cls)[n]
  {
    r := map[];
    if cls.None? {
      return;
    }
    var hints := HintsOf(cls);
    var todo := hints.Keys;
    while todo != {}
      invariant todo <= hints.Keys
      invariant forall n :: n in r <==> n in hints && n !in todo && !Private(n)
      invariant forall n :: n in r ==> r[n] == hints[n]
      decreases |todo|
    {
      var n :| n in todo;
      if !Private(n) {
        r := r[n := hints[n]];
      }
      todo := todo - {n};
    }
    var annotations := AnnotationsOf(cls);
    ghost var fromHints := r;
    todo := annotations.Keys;
    while todo != {}
      invariant todo <= annotations.Keys
      invariant forall n :: n in r <==> n in fromHints || (n in annotations && n !in todo && !Private(n))
      invariant forall n :: n in fromHints ==> r[n] == fromHints[n]
      invariant forall n :: n in r && n !in fromHints ==> r[n] == annotations[n]
      decreases |todo|
    {
      var n :| n in todo;
      if !Private(n) && n !in r {
        r := r[n := annotations[n]];
      }
      todo := todo - {n};
    }
    EventTypesCharacterised(cls, r);
  }

  /** A table with exactly the public declared names, each with its hint when there
      is one and its annotation otherwise, is the class's event table. */
  lemma EventTypesCharacterised(cls: Option<EventsClass>, r: map<string, EventType>)
    requires forall n :: n in r <==> !Private(n) && (n in HintsOf(cls) || n in AnnotationsOf(cls))
    requires forall n :: n in r && n in HintsOf(cls) ==> r[n] == HintsOf(cls)[n]
    requires forall n :: n in r && n !in HintsOf(cls) ==> r[n] == AnnotationsOf(cls)[n]
    ensures r == EventTypes(cls)
  {
  }

  // ---------------------------------------------------------------- one connection

  /** `WebSocketStatus`. Nothing in the connection ever sets `Error`. */
  datatype Status = Connecting | Connected | Disconnected | Error

  /** A handler, known by the name of the coroutine function registered with `on`. */
  type HandlerId = string

  /** The calls made on the FastAPI socket, in order. */
  datatype TransportCall = TAccept | TClose(code: int, reason: string) | TSendText(message: Json)

  /** The connection's state; `closed` is the `asyncio.Event` `wait_closed` waits on. */
  datatype Connection = Connection(
    status: Status,
    closed: bool,
    handlers: map<string, HandlerId>,
    serverTypes: map<string, EventType>,
    clientTypes: map<string, EventType>,
    transport: seq<TransportCall>)

  /** A new connection: not yet accepted, no handlers, the event tables extracted. */
  method Open(serverEvents: Option<EventsClass>, clientEvents: Option<EventsClass>) returns (c: Connection)
    ensures c.status == Connecting && !IsConnected(c) && !c.closed
    ensures c.handlers == map[] && c.transport == []
    ensures c.serverTypes == EventTypes(serverEvents) && c.clientTypes == EventTypes(clientEvents)
    ensures forall n :: n in c.clientTypes <==> !Private(n) && (n in HintsOf(clientEvents) || n in AnnotationsOf(clientEvents))
    ensures forall n :: n in c.serverTypes <==> !Private(n) && (n in HintsOf(serverEvents) || n in AnnotationsOf(serverEvents))
    ensures forall n :: n in c.clientTypes && n in HintsOf(clientEvents) ==> c.clientTypes[n] == HintsOf(clientEvents)[n]
    ensures forall n :: n in c.clientTypes && n !in HintsOf(clientEvents) ==> c.clientTypes[n] == AnnotationsOf(clientEvents)[n]
    ensures forall n :: n in c.serverTypes && n in HintsOf(serverEvents) ==> c.serverTypes[n] == HintsOf(serverEvents)[n]
    ensures forall n :: n in c.serverTypes && n !in HintsOf(serverEvents) ==> c.serverTypes[n] == AnnotationsOf(serverEvents)[n]
    ensures clientEvents.None? ==> c.clientTypes == map[]
    ensures serverEvents.None? ==> c.serverTypes == map[]
  {
    var serverTypes := ExtractEventTypes(serverEvents);
    var clientTypes := ExtractEventTypes(clientEvents);
    c := Connection(Connecting, false, map[], serverTypes, clientTypes, []);
  }

  /** The connection `Open` builds, as a value. */
  function Opened(serverEvents: Option<EventsClass>, clientEvents: Option<EventsClass>): Connection {
    Connection(Connecting, false, map[], EventTypes(serverEvents), EventTypes(clientEvents), [])
  }

  predicate IsConnected(c: Connection) {
    c.status == Connected
  }

  /** `accept`: the transport accepts and the status becomes `Connected`, whatever it was. */
  function Accept(c: Connection): (r: Connection)
    ensures IsConnected(r) && r.closed == c.closed && r.handlers == c.handlers
    ensures r.serverTypes == c.serverTypes && r.clientTypes == c.clientTypes
    ensures r.transport == c.transport + [TAccept]
  {
    c.(status := Connected, transport := c.transport + [TAccept])
  }

  /** `close`: only a connected socket is closed, which becomes `Disconnected` with
      the closed event set; in every other state nothing happens. */
  function Close(c: Connection, code: int, reason: string): (r: Connection)
    ensures IsConnected(c) ==> r.status == Disconnected && r.closed
    ensures IsConnected(c) ==> r.transport == c.transport + [TClose(code, reason)]
    ensures !IsConnected(c) ==> r == c
    ensures r.handlers == c.handlers && r.clientTypes == c.clientTypes && r.serverTypes == c.serverTypes
  {
    if IsConnected(c) then
      c.(status := Disconnected, closed := true, transport := c.transport + [TClose(code, reason)])
    else c
  }

  /** Closing twice is closing once: the second call finds the socket disconnected. */
  lemma CloseIdempotent(c: Connection, code: int, reason: string, code2: int, reason2: string)
    ensures Close(Close(c, code, reason), code2, reason2) == Close(c, code, reason)
  {
  }

  /** What `send` puts on the wire for its `data`: a model's dump, anything else as is. */
  datatype Payload = ModelPayload(dumped: Json) | PlainPayload(value: Json)

  function Serialized(p: Payload): Json {
    match p
    case ModelPayload(d) => d
    case PlainPayload(v) => v
  }

  const NotConnectedMessage := "Cannot send on disconnected WebSocket"

  /** `send`: a `RuntimeError` unless connected; otherwise one text frame holding
      the envelope, which reads back as the event and serialised data. */
  function Send(c: Connection, event: string, p: Payload): (r: Result<Connection, string>)
    ensures r.Err? <==> !IsConnected(c)
    ensures r.Err? ==> r.error == NotConnectedMessage
    ensures r.Ok? ==> r.value.status == c.status && r.value.handlers == c.handlers && r.value.closed == c.closed
    ensures r.Ok? ==> r.value.serverTypes == c.serverTypes && r.value.clientTypes == c.clientTypes
    ensures r.Ok? ==> |r.value.transport| == |c.transport| + 1
    ensures r.Ok? ==> r.value.transport[..|c.transport|] == c.transport
    ensures r.Ok? ==> r.value.transport[|c.transport|].TSendText?
    ensures r.Ok? ==> FromJson(r.value.transport[|c.transport|].message)
                      == Some(Envelope(JStr(event), Serialized(p)))
  {
    if !IsConnected(c) then Err(NotConnectedMessage)
    else
      EnvelopeRoundTrip(event, Serialized(p));
      Ok(c.(transport := c.transport + [TSendText(ToJson(event, Serialized(p)))]))
  }

  /** A connection is only writable between `accept` and `close`. */
  lemma SendOnlyWhileConnected(c: Connection, event: string, p: Payload)
    ensures c.status == Connecting ==> Send(c, event, p).Err?
    ensures Send(Accept(c), event, p).Ok?
    ensures Send(Close(Accept(c), 1000, ""), event, p).Err?
  {
  }

  /** `on(event)(handler)`: the handler replaces any earlier one for that event. */
  function On(c: Connection, event: string, handler: HandlerId): (r: Connection)
    ensures r.handlers.Keys == c.handlers.Keys + {event}
    ensures r.handlers[event] == handler
    ensures forall e :: e in c.handlers && e != event ==> r.handlers[e] == c.handlers[e]
    ensures r.status == c.status && r.transport == c.transport && r.closed == c.closed
    ensures r.clientTypes == c.clientTypes && r.serverTypes == c.serverTypes
  {
    c.(handlers := c.handlers[event := handler])
  }

  /** The last registration for an event wins. */
  lemma OnLastWins(c: Connection, event: string, first: HandlerId, second: HandlerId)
    ensures On(On(c, event, first), event, second) == On(c, event, second)
  {
  }

  /** What a handler is called with: the raw data, or the event's model built from it. */
  datatype Arg = RawArg(value: Json) | ModelArg(cls: string, fields: map<string, Json>)

  /** How `_handle_message` ends; it never raises. A handler's own exception is
      swallowed after the call, so it still ends `Dispatched`. */
  datatype Handled =
    | Dispatched(handler: HandlerId, arg: Arg)
    | NoHandler(event: Json)     // a warning is logged
    | Dropped                    // the raised exception is logged

  /** Values Python can use as a dict key. */
  predicate Hashable(j: Json) {
    !j.JArr? && !j.JObj?
  }

  /** `self._client_event_types.get(event)`. */
  function Expected(clientTypes: map<string, EventType>, event: Json): Option<EventType> {
    if event.JStr? && event.s in clientTypes then Some(clientTypes[event.s]) else None
  }

  /** `_handle_message` on a message `json.loads` parsed (`None`: it raised). An
      event whose type is a Pydantic model has object data built into that model
      with `validates` deciding if the constructor raises; the handler registered
      for the event is then called with the data. */
  function HandleMessage(handlers: map<string, HandlerId>, clientTypes: map<string, EventType>,
                         parsed: Option<Json>, validates: (string, map<string, Json>) -> bool): (r: Handled)
    ensures r.Dispatched? <==>
      parsed.Some? && parsed.value.JObj?
      && var env := FromJson(parsed.value).value;
         env.event.JStr? && env.event.s in handlers
         && !(Expected(clientTypes, env.event).Some? && Expected(clientTypes, env.event).value.Resolved?
              && Expected(clientTypes, env.event).value.hint.ModelT? && env.data.JObj?
              && !validates(Expected(clientTypes, env.event).value.hint.name, env.data.fields))
    ensures r.Dispatched? ==> r.handler == handlers[FromJson(parsed.value).value.event.s]
    ensures r.Dispatched? && r.arg.ModelArg? ==>
      Expected(clientTypes, FromJson(parsed.value).value.event) == Some(Resolved(ModelT(r.arg.cls)))
      && FromJson(parsed.value).value.data == JObj(r.arg.fields) && validates(r.arg.cls, r.arg.fields)
    ensures r.Dispatched? && r.arg.RawArg? ==> r.arg.value == FromJson(parsed.value).value.data
    ensures r.Dispatched? ==>
      var env := FromJson(parsed.value).value;
      var e := Expected(clientTypes, env.event);
      if e.Some? && e.value.Resolved? && e.value.hint.ModelT? && env.data.JObj?
      then r.arg == ModelArg(e.value.hint.name, env.data.fields)
      else r.arg == RawArg(env.data)
    ensures r.NoHandler? ==> r.event.JStr? ==> r.event.s !in handlers
  {
    if parsed.None? then Dropped
    else match FromJson(parsed.value)
      case None => Dropped
      case Some(env) =>
        if !Hashable(env.event) then Dropped
        else
          var expected := Expected(clientTypes, env.event);
          var isModel := expected.Some? && expected.value.Resolved? && expected.value.hint.ModelT?;
          if isModel && env.data.JObj? && !validates(expected.value.hint.name, env.data.fields) then Dropped
          else
            var arg := if isModel && env.data.JObj? then ModelArg(expected.value.hint.name, env.data.fields)
                       else RawArg(env.data);
            if env.event.JStr? && env.event.s in handlers then Dispatched(handlers[env.event.s], arg)
            else NoHandler(env.event)
  }

  /** After `on(event)`, a message for that event whose type is not a model reaches
      that handler with its data unchanged. */
  lemma OnThenDispatch(c: Connection, event: string, h: HandlerId, data: Json,
                       validates: (string, map<string, Json>) -> bool)
    requires event !in c.clientTypes || !c.clientTypes[event].Resolved? || !c.clientTypes[event].hint.ModelT?
    ensures HandleMessage(On(c, event, h).handlers, c.clientTypes, Some(ToJson(event, data)), validates)
            == Dispatched(h, RawArg(data))
  {
  }

  /** On a freshly opened connection, a client event the events class declares
      with a model type has its object data built into that model before it
      reaches the handler registered for it. */
  lemma DeclaredModelEventValidated(serverEvents: Option<EventsClass>, clientEvents: Option<EventsClass>,
                                    event: string, cls: string, h: HandlerId, fields: map<string, Json>,
                                    validates: (string, map<string, Json>) -> bool)
    requires !Private(event) && event in HintsOf(clientEvents)
    requires HintsOf(clientEvents)[event] == Resolved(ModelT(cls))
    requires validates(cls, fields)
    ensures var c := On(Opened(serverEvents, clientEvents), event, h);
      HandleMessage(c.handlers, c.clientTypes, Some(ToJson(event, JObj(fields))), validates)
      == Dispatched(h, ModelArg(cls, fields))
  {
    assert EventTypes(clientEvents)[event] == Resolved(ModelT(cls));
  }

  /** An event whose name starts with an underscore is never in an extracted table,
      so its data reaches the handler as it arrived, whatever the class declares. */
  lemma PrivateEventStaysRaw(serverEvents: Option<EventsClass>, clientEvents: Option<EventsClass>,
                             event: string, h: HandlerId, data: Json,
                             validates: (string, map<string, Json>) -> bool)
    requires Private(event)
    ensures event !in Opened(serverEvents, clientEvents).clientTypes
    ensures var c := On(Opened(serverEvents, clientEvents), event, h);
      HandleMessage(c.handlers, c.clientTypes, Some(ToJson(event, data)), validates)
      == Dispatched(h, RawArg(data))
  {
    OnThenDispatch(Opened(serverEvents, clientEvents), event, h, data, validates);
  }

  /** A received frame: text `json.loads` parsed (or failed on), the client leaving,
      or any other receive error. */
  datatype Incoming = Text(parsed: Option<Json>) | ClientLeft | ReceiveFailed

  /** The last handler call closed the connection. */
  predicate ClosedBy(closes: (HandlerId, Arg) -> Option<(int, string)>, h: Handled) {
    h.Dispatched? && closes(h.handler, h.arg).Some?
  }

  /** The close frame a handler's `close(code, reason)` call sends. */
  function CloseFrame(closes: (HandlerId, Arg) -> Option<(int, string)>, h: Handled): TransportCall
    requires ClosedBy(closes, h)
  {
    var (code, reason) := closes(h.handler, h.arg).value;
    TClose(code, reason)
  }

  /** `listen`: accepts unless connected, then handles text frames while connected,
      stops at the first disconnect or receive error (running out of frames counts
      as the client leaving), and in every case ends `Disconnected` with the closed
      event set. A handler may call `close(code, reason)`; `closes` says which calls
      do and with which code and reason. */
  method Listen(c: Connection, incoming: seq<Incoming>,
                validates: (string, map<string, Json>) -> bool,
                closes: (HandlerId, Arg) -> Option<(int, string)>)
    returns (r: Connection, handled: seq<Handled>)
    ensures r.status == Disconnected && r.closed
    ensures r.handlers == c.handlers && r.clientTypes == c.clientTypes && r.serverTypes == c.serverTypes
    ensures |handled| <= |incoming|
    ensures forall i :: 0 <= i < |handled| ==>
      incoming[i].Text? && handled[i] == HandleMessage(c.handlers, c.clientTypes, incoming[i].parsed, validates)
    ensures forall i :: 0 <= i < |handled| - 1 ==> !ClosedBy(closes, handled[i])
    ensures |handled| < |incoming| ==>
      !incoming[|handled|].Text? || (|handled| > 0 && ClosedBy(closes, handled[|handled| - 1]))
    ensures var start := c.transport + (if IsConnected(c) then [] else [TAccept]);
      r.transport == start + (if |handled| > 0 && ClosedBy(closes, handled[|handled| - 1])
                              then [CloseFrame(closes, handled[|handled| - 1])] else [])
  {
    var cur := c;
    if !IsConnected(cur) {
      cur := Accept(cur);
    }
    ghost var start := cur.transport;
    handled := [];
    var i := 0;
    while IsConnected(cur) && i < |incoming| && incoming[i].Text?
      invariant 0 <= i <= |incoming| && |handled| == i
      invariant cur.handlers == c.handlers && cur.clientTypes == c.clientTypes && cur.serverTypes == c.serverTypes
      invariant forall k :: 0 <= k < i ==>
        incoming[k].Text? && handled[k] == HandleMessage(c.handlers, c.clientTypes, incoming[k].parsed, validates)
      invariant forall k :: 0 <= k < i - 1 ==> !ClosedBy(closes, handled[k])
      invariant IsConnected(cur) <==> !(i > 0 && ClosedBy(closes, handled[i - 1]))
      invariant cur.transport == start + (if i > 0 && ClosedBy(closes, handled[i - 1])
                                           then [CloseFrame(closes, handled[i - 1])] else [])
      decreases |incoming| - i
    {
      var h := HandleMessage(cur.handlers, cur.clientTypes, incoming[i].parsed, validates);
      handled := handled + [h];
      if ClosedBy(closes, h) {
        var (code, reason) := closes(h.handler, h.arg).value;
        cur := Close(cur, code, reason);
      }
      i := i + 1;
    }
    r := cur.(status := Disconnected, closed := true);
  }

  /** No operation of a connection ever enters the `Error` status. */
  lemma NeverError(c: Connection, code: int, reason: string, event: string, p: Payload, h: HandlerId)
    requires c.status != Error
    ensures Accept(c).status != Error && Close(c, code, reason).status != Error
    ensures Send(c, event, p).Ok? ==> Send(c, event, p).value.status != Error
    ensures On(c, event, h).status != Error
  {
  }
}
