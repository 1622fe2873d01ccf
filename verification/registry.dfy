/** The command registry: one flat namespace of commands, the Pydantic models their
    signatures mention, the recursive model walk, and the `@command` decorator that
    fills both. The registry is a value here; each operation returns the next one. */
module Registry {
  import opened Common
  import opened TypeHints

  /** `CommandInfo` without the function object: the signature facts the bridge and
      the generator read. `channelHint` is `get_type_hints(fn).get("channel")`. */
  datatype CommandInfo = CommandInfo(
    name: string,
    params: seq<(string, TypeHint)>,
    returnType: Option<TypeHint>,
    isAsync: bool,
    doc: Option<string>,
    moduleName: string,
    hasChannel: bool,
    channelHint: Option<TypeHint>)

  /** `CommandRegistry`: commands and collected models, each keyed by its name. */
  datatype Registry = Registry(commands: map<string, CommandInfo>, models: map<string, ModelDef>)

  ghost predicate Valid(reg: Registry) {
    && (forall n :: n in reg.commands ==> reg.commands[n].name == n)
    && (forall n :: n in reg.models ==> reg.models[n].name == n)
  }

  function ConflictMessage(name: string, existing: string, incoming: string): string {
    "Command name conflict: '" + name + "' is defined in both '" + existing + "' and '" + incoming
      + "'. Command names must be unique across all modules."
  }

  /** `register`: a second command under a taken name is refused with a ValueError
      naming both modules; otherwise exactly that one entry is added. */
  function Register(reg: Registry, cmd: CommandInfo): (r: Result<Registry, string>)
    ensures r.Err? <==> cmd.name in reg.commands
    ensures r.Err? ==> r.error == ConflictMessage(cmd.name, reg.commands[cmd.name].moduleName, cmd.moduleName)
    ensures r.Ok? ==> r.value.commands == reg.commands[cmd.name := cmd] && r.value.models == reg.models
    ensures r.Ok? && Valid(reg) ==> Valid(r.value)
  {
    if cmd.name in reg.commands then Err(ConflictMessage(cmd.name, reg.commands[cmd.name].moduleName, cmd.moduleName))
    else Ok(reg.(commands := reg.commands[cmd.name := cmd]))
  }

  /** `register_model`: the first model registered under a name stays. */
  function RegisterModel(reg: Registry, m: ModelDef): (r: Registry)
    ensures r.commands == reg.commands
    ensures m.name in r.models
    ensures m.name in reg.models ==> r == reg
    ensures m.name !in reg.models ==> r.models[m.name] == m
    ensures forall n :: n in reg.models ==> n in r.models && r.models[n] == reg.models[n]
    ensures r.models.Keys == reg.models.Keys + {m.name}
  {
    if m.name in reg.models then reg else reg.(models := reg.models[m.name := m])
  }

  /** `get_command`. */
  function GetCommand(reg: Registry, name: string): (r: Option<CommandInfo>)
    ensures r.Some? <==> name in reg.commands
    ensures r.Some? ==> r.value == reg.commands[name]
  {
    Get(reg.commands, name)
  }

  /** `reset`: both tables emptied. */
  function Reset(reg: Registry): (r: Registry)
    ensures r.commands == map[] && r.models == map[]
  {
    Registry(map[], map[])
  }

  /** A registered command is found under its name, and nothing else moves. */
  lemma RegisterThenGet(reg: Registry, cmd: CommandInfo, other: string)
    requires Register(reg, cmd).Ok?
    ensures GetCommand(Register(reg, cmd).value, cmd.name) == Some(cmd)
    ensures other != cmd.name ==> GetCommand(Register(reg, cmd).value, other) == GetCommand(reg, other)
  {
  }

  /** Command names are unique: registering the same name again always fails, and
      the error names the module that holds it and the one that asked. */
  lemma RegisterTwiceFails(reg: Registry, first: CommandInfo, second: CommandInfo)
    requires Register(reg, first).Ok? && second.name == first.name
    ensures Register(Register(reg, first).value, second) == Err(ConflictMessage(first.name, first.moduleName, second.moduleName))
  {
  }

  /** `register_model` is idempotent. */
  lemma RegisterModelIdempotent(reg: Registry, m: ModelDef)
    ensures RegisterModel(RegisterModel(reg, m), m) == RegisterModel(reg, m)
  {
  }

  /** After `reset` every name is free again. */
  lemma ResetFreesNames(reg: Registry, cmd: CommandInfo)
    ensures GetCommand(Reset(reg), cmd.name).None?
    ensures Register(Reset(reg), cmd) == Ok(Registry(map[cmd.name := cmd], map[]))
  {
  }

  // ---------------------------------------------------------------- collect_models_from_type

  /** Every collected model is the program's class of that name. */
  ghost predicate Drawn(models: map<string, ModelDef>, classes: map<string, ModelDef>) {
    forall n :: n in models ==> n in classes && models[n] == classes[n]
  }

  lemma {:induction false} SubsetCard(a: set<string>, b: set<string>)
    requires a <= b
    ensures |a| <= |b|
    decreases a
  {
    if a != {} {
      var x :| x in a;
      SubsetCard(a - {x}, b - {x});
    }
  }

  /** Adding a model not yet present shrinks the set of classes still to visit. */
  lemma CardStep(k: set<string>, m: set<string>, n: string)
    requires n in k && n !in m
    ensures |k - (m + {n})| < |k - m|
  {
    assert k - (m + {n}) == (k - m) - {n};
  }

  lemma CardMono(k: set<string>, a: set<string>, b: set<string>)
    requires a <= b
    ensures |k - b| <= |k - a|
  {
    SubsetCard(k - b, k - a);
  }

  function FieldsSize(fs: seq<Field>): nat {
    if |fs| == 0 then 0 else Size(fs[0].annotation) + FieldsSize(fs[1..])
  }

  /** `collect_models_from_type(hint)` from the collected `models`: every argument of a
      generic alias is walked; a model not yet collected is added and then its fields
      are walked; one already present is not walked again. */
  function Collect(t: TypeHint, classes: map<string, ModelDef>, models: map<string, ModelDef>): (r: map<string, ModelDef>)
    requires ClassesOk(classes) && Drawn(models, classes) && Models(t) <= classes.Keys
    ensures Drawn(r, classes) && models.Keys <= r.Keys
    ensures Models(t) <= r.Keys
    ensures forall n :: n in r && n !in models ==> FieldModels(classes[n].fields) <= r.Keys
    decreases |classes.Keys - models.Keys|, Size(t), 0
  {
    if t.ModelT? then
      if t.name in models then models
      else
        CardStep(classes.Keys, models.Keys, t.name);
        CollectFields(classes[t.name].fields, classes, models[t.name := classes[t.name]])
    else if t.PipeUnionT? then models
    else
      ArgsStep(t);
      CollectSeq(Args(t), classes, models)
  }

  function CollectSeq(ts: seq<TypeHint>, classes: map<string, ModelDef>, models: map<string, ModelDef>): (r: map<string, ModelDef>)
    requires ClassesOk(classes) && Drawn(models, classes) && ModelsSeq(ts) <= classes.Keys
    ensures Drawn(r, classes) && models.Keys <= r.Keys
    ensures ModelsSeq(ts) <= r.Keys
    ensures forall n :: n in r && n !in models ==> FieldModels(classes[n].fields) <= r.Keys
    decreases |classes.Keys - models.Keys|, SizeSeq(ts), 1
  {
    if |ts| == 0 then models
    else
      var m := Collect(ts[0], classes, models);
      CardMono(classes.Keys, models.Keys, m.Keys);
      CollectSeq(ts[1..], classes, m)
  }

  function CollectFields(fs: seq<Field>, classes: map<string, ModelDef>, models: map<string, ModelDef>): (r: map<string, ModelDef>)
    requires ClassesOk(classes) && Drawn(models, classes) && FieldModels(fs) <= classes.Keys
    ensures Drawn(r, classes) && models.Keys <= r.Keys
    ensures FieldModels(fs) <= r.Keys
    ensures forall n :: n in r && n !in models ==> FieldModels(classes[n].fields) <= r.Keys
    decreases |classes.Keys - models.Keys|, FieldsSize(fs), 1
  {
    if |fs| == 0 then models
    else
      var m := Collect(fs[0].annotation, classes, models);
      CardMono(classes.Keys, models.Keys, m.Keys);
      CollectFields(fs[1..], classes, m)
  }

  /** `s` holds the field models of each of its members not collected before. */
  ghost predicate Closed(s: set<string>, before: set<string>, classes: map<string, ModelDef>) {
    forall n :: n in s && n !in before && n in classes ==> FieldModels(classes[n].fields) <= s
  }

  /** The walk adds nothing it need not: its result lies inside every closed set
      containing the models already collected and those the annotation names. */
  lemma {:induction false} CollectLeast(t: TypeHint, classes: map<string, ModelDef>, models: map<string, ModelDef>, s: set<string>)
    requires ClassesOk(classes) && Drawn(models, classes) && Models(t) <= classes.Keys
    requires models.Keys <= s && Models(t) <= s && Closed(s, models.Keys, classes)
    ensures Collect(t, classes, models).Keys <= s
    decreases |classes.Keys - models.Keys|, Size(t), 0
  {
    if t.ModelT? {
      if t.name !in models {
        CardStep(classes.Keys, models.Keys, t.name);
        CollectFieldsLeast(classes[t.name].fields, classes, models[t.name := classes[t.name]], s);
      }
    } else if !t.PipeUnionT? {
      ArgsStep(t);
      CollectSeqLeast(Args(t), classes, models, s);
    }
  }

  lemma {:induction false} CollectSeqLeast(ts: seq<TypeHint>, classes: map<string, ModelDef>, models: map<string, ModelDef>, s: set<string>)
    requires ClassesOk(classes) && Drawn(models, classes) && ModelsSeq(ts) <= classes.Keys
    requires models.Keys <= s && ModelsSeq(ts) <= s && Closed(s, models.Keys, classes)
    ensures CollectSeq(ts, classes, models).Keys <= s
    decreases |classes.Keys - models.Keys|, SizeSeq(ts), 1
  {
    if |ts| > 0 {
      var m := Collect(ts[0], classes, models);
      CollectLeast(ts[0], classes, models, s);
      CardMono(classes.Keys, models.Keys, m.Keys);
      CollectSeqLeast(ts[1..], classes, m, s);
    }
  }

  lemma {:induction false} CollectFieldsLeast(fs: seq<Field>, classes: map<string, ModelDef>, models: map<string, ModelDef>, s: set<string>)
    requires ClassesOk(classes) && Drawn(models, classes) && FieldModels(fs) <= classes.Keys
    requires models.Keys <= s && FieldModels(fs) <= s && Closed(s, models.Keys, classes)
    ensures CollectFields(fs, classes, models).Keys <= s
    decreases |classes.Keys - models.Keys|, FieldsSize(fs), 1
  {
    if |fs| > 0 {
      var m := Collect(fs[0].annotation, classes, models);
      CollectLeast(fs[0].annotation, classes, models, s);
      CardMono(classes.Keys, models.Keys, m.Keys);
      CollectFieldsLeast(fs[1..], classes, m, s);
    }
  }

  /** A self-referencing model (a tree node whose children are nodes) is collected
      once and the walk stops. */
  lemma SelfReferenceCollectedOnce()
    ensures var node := ModelDef("Node", None, [Field("children", ListT([ModelT("Node")]), false, None)]);
      var classes := map["Node" := node];
      ClassesOk(classes) && Collect(ModelT("Node"), classes, map[]) == classes
  {
    var node := ModelDef("Node", None, [Field("children", ListT([ModelT("Node")]), false, None)]);
    var classes := map["Node" := node];
    assert FieldModels(node.fields) == {"Node"} by {
      assert Models(ListT([ModelT("Node")])) == {"Node"} by {
        assert ModelsSeq([ModelT("Node")]) == Models(ModelT("Node")) + ModelsSeq([]);
      }
      assert node.fields[1..] == [];
    }
    assert ClassesOk(classes);
    var r := Collect(ModelT("Node"), classes, map[]);
    CollectLeast(ModelT("Node"), classes, map[], {"Node"});
    assert r.Keys == {"Node"};
  }

  // ---------------------------------------------------------------- the @command decorator

  /** What the decorator reads off a function: `__name__`, the parameter names in
      signature order, `get_type_hints(fn)` (empty when that raised), whether it is a
      coroutine function, `__doc__` and `__module__`. */
  datatype FunctionSig = FunctionSig(
    name: string,
    params: seq<string>,
    hints: map<string, TypeHint>,
    isAsync: bool,
    doc: Option<string>,
    moduleName: string)

  /** `hints.get(p, Any)`. */
  function HintOr(hints: map<string, TypeHint>, p: string): TypeHint {
    if p in hints then hints[p] else AnyT
  }

  /** `name or fn.__name__`: an empty custom name counts as none. */
  function CommandName(fn: FunctionSig, custom: Option<string>): (r: string)
    ensures custom.Some? && custom.value != "" ==> r == custom.value
    ensures custom.None? || custom.value == "" ==> r == fn.name
  {
    if custom.Some? && custom.value != "" then custom.value else fn.name
  }

  /** The parameters other than `channel`, in signature order, each with its hint or `Any`. */
  function ParamsOf(names: seq<string>, hints: map<string, TypeHint>): (r: seq<(string, TypeHint)>)
    ensures |r| <= |names|
    ensures forall i :: 0 <= i < |r| ==> r[i].0 in names && r[i].0 != "channel" && r[i].1 == HintOr(hints, r[i].0)
    ensures "channel" !in names ==> |r| == |names|
  {
    if |names| == 0 then []
    else if names[0] == "channel" then ParamsOf(names[1..], hints)
    else [(names[0], HintOr(hints, names[0]))] + ParamsOf(names[1..], hints)
  }

  /** No parameter but `channel` is dropped. */
  lemma {:induction false} ParamsOfCovers(names: seq<string>, hints: map<string, TypeHint>, p: string)
    requires p in names && p != "channel"
    ensures exists i :: 0 <= i < |ParamsOf(names, hints)| && ParamsOf(names, hints)[i].0 == p
  {
    var r := ParamsOf(names, hints);
    if names[0] == p {
      assert r[0].0 == p;
    } else {
      ParamsOfCovers(names[1..], hints, p);
      var rest := ParamsOf(names[1..], hints);
      var i :| 0 <= i < |rest| && rest[i].0 == p;
      if names[0] == "channel" {
        assert r[i].0 == p;
      } else {
        assert r[i + 1].0 == p;
      }
    }
  }

  /** The command the decorator builds from a function. */
  function BuildCommand(fn: FunctionSig, custom: Option<string>): (r: CommandInfo)
    ensures r.name == CommandName(fn, custom)
    ensures r.hasChannel <==> "channel" in fn.params
    ensures r.returnType == Get(fn.hints, "return")
    ensures r.channelHint == Get(fn.hints, "channel")
    ensures forall i :: 0 <= i < |r.params| ==> r.params[i].0 != "channel" && r.params[i].0 in fn.params
    ensures r.params == ParamsOf(fn.params, fn.hints)
    ensures r.isAsync == fn.isAsync && r.doc == fn.doc && r.moduleName == fn.moduleName
  {
    CommandInfo(CommandName(fn, custom), ParamsOf(fn.params, fn.hints), Get(fn.hints, "return"),
      fn.isAsync, fn.doc, fn.moduleName, "channel" in fn.params, Get(fn.hints, "channel"))
  }

  /** The element type of a `Channel[T]` hint: `get_args(hint)[0]`, when there is one. */
  function ChannelElement(hint: Option<TypeHint>): (r: Option<TypeHint>)
    ensures r.Some? <==> hint.Some? && |Args(hint.value)| > 0
  {
    if hint.Some? && |Args(hint.value)| > 0 then Some(Args(hint.value)[0]) else None
  }

  function OptModels(t: Option<TypeHint>): set<string> {
    if t.Some? then Models(t.value) else {}
  }

  function ParamModels(ps: seq<(string, TypeHint)>): set<string> {
    if |ps| == 0 then {} else Models(ps[0].1) + ParamModels(ps[1..])
  }

  /** Every model a command's signature names: its parameters, its return type and
      the element type of its channel. */
  function CommandModels(cmd: CommandInfo): set<string> {
    ParamModels(cmd.params) + OptModels(cmd.returnType)
      + (if cmd.hasChannel then OptModels(ChannelElement(cmd.channelHint)) else {})
  }

  /** The program's hints name only classes it defines, also through `get_args`. */
  ghost predicate HintsOk(hints: map<string, TypeHint>, classes: map<string, ModelDef>) {
    forall k :: k in hints ==> Models(hints[k]) <= classes.Keys && ModelsSeq(Args(hints[k])) <= classes.Keys
  }

  lemma ChannelElementModels(hints: map<string, TypeHint>, classes: map<string, ModelDef>)
    requires HintsOk(hints, classes)
    ensures OptModels(ChannelElement(Get(hints, "channel"))) <= classes.Keys
  {
    if ChannelElement(Get(hints, "channel")).Some? {
      ModelsSeqMember(Args(hints["channel"]), 0);
    }
  }

  /** The models collected while walking the parameter list in signature order. */
  function CollectParams(names: seq<string>, hints: map<string, TypeHint>, classes: map<string, ModelDef>, models: map<string, ModelDef>): (r: map<string, ModelDef>)
    requires ClassesOk(classes) && Drawn(models, classes) && HintsOk(hints, classes)
    ensures Drawn(r, classes) && models.Keys <= r.Keys
    ensures ParamModels(ParamsOf(names, hints)) <= r.Keys
    ensures "channel" in names ==> OptModels(ChannelElement(Get(hints, "channel"))) <= r.Keys
    ensures forall n :: n in r && n !in models ==> FieldModels(classes[n].fields) <= r.Keys
    decreases |names|
  {
    if |names| == 0 then models
    else
      var hint := if names[0] == "channel" then ChannelElement(Get(hints, "channel")) else Some(HintOr(hints, names[0]));
      ChannelElementModels(hints, classes);
      var m := if hint.Some? then Collect(hint.value, classes, models) else models;
      CollectParams(names[1..], hints, classes, m)
  }

  /** What applying the decorator leaves behind: the registry, and the ValueError
      `register` raised, if any. */
  datatype Decorated = Decorated(registry: Registry, error: Option<string>)

  /** `@command`: the models of every parameter, of the channel's element and of the
      return type are collected first, then the command is registered; a name
      conflict is raised only after the models went in. */
  function Decorate(reg: Registry, fn: FunctionSig, custom: Option<string>, classes: map<string, ModelDef>): (r: Decorated)
    requires ClassesOk(classes) && Drawn(reg.models, classes) && HintsOk(fn.hints, classes)
    ensures r.error.Some? <==> CommandName(fn, custom) in reg.commands
    ensures r.error.Some? ==> r.registry.commands == reg.commands
    ensures r.error.None? ==> r.registry.commands == reg.commands[CommandName(fn, custom) := BuildCommand(fn, custom)]
    ensures Drawn(r.registry.models, classes) && reg.models.Keys <= r.registry.models.Keys
    ensures CommandModels(BuildCommand(fn, custom)) <= r.registry.models.Keys
    ensures forall n :: n in r.registry.models && n !in reg.models ==> FieldModels(classes[n].fields) <= r.registry.models.Keys
  {
    var cmd := BuildCommand(fn, custom);
    var m1 := CollectParams(fn.params, fn.hints, classes, reg.models);
    var m2 := if cmd.returnType.Some? then Collect(cmd.returnType.value, classes, m1) else m1;
    var collected := reg.(models := m2);
    match Register(collected, cmd)
    case Ok(next) => Decorated(next, None)
    case Err(e) => Decorated(collected, Some(e))
  }

  /** Decorating a function whose name is free makes it retrievable by that name. */
  lemma DecorateThenGet(reg: Registry, fn: FunctionSig, custom: Option<string>, classes: map<string, ModelDef>)
    requires ClassesOk(classes) && Drawn(reg.models, classes) && HintsOk(fn.hints, classes)
    requires CommandName(fn, custom) !in reg.commands
    ensures GetCommand(Decorate(reg, fn, custom, classes).registry, CommandName(fn, custom)) == Some(BuildCommand(fn, custom))
  {
  }

  // ---------------------------------------------------------------- completeness

  /** Every model a registered command names is collected, and so is every model a
      collected model's fields name: the generator then never refers to an
      interface it does not emit. */
  ghost predicate Complete(reg: Registry, classes: map<string, ModelDef>) {
    && Drawn(reg.models, classes)
    && (forall n :: n in reg.commands ==> CommandModels(reg.commands[n]) <= reg.models.Keys)
    && (forall n :: n in reg.models ==> FieldModels(classes[n].fields) <= reg.models.Keys)
  }

  lemma ResetComplete(reg: Registry, classes: map<string, ModelDef>)
    ensures Complete(Reset(reg), classes)
  {
  }

  /** Applying the decorator keeps the registry complete, whether or not the
      registration itself succeeds. */
  lemma DecorateKeepsComplete(reg: Registry, fn: FunctionSig, custom: Option<string>, classes: map<string, ModelDef>)
    requires ClassesOk(classes) && HintsOk(fn.hints, classes) && Complete(reg, classes)
    ensures Complete(Decorate(reg, fn, custom, classes).registry, classes)
  {
    var r := Decorate(reg, fn, custom, classes).registry;
    forall n | n in r.models ensures FieldModels(classes[n].fields) <= r.models.Keys {
      if n in reg.models {
        assert FieldModels(classes[n].fields) <= reg.models.Keys;
      }
    }
    forall n | n in r.commands ensures CommandModels(r.commands[n]) <= r.models.Keys {
      if n != CommandName(fn, custom) {
        assert r.commands[n] == reg.commands[n];
      }
    }
  }

  /** `register_model` does not walk the model's fields: registering by hand a model
      whose field names another model leaves the registry incomplete. */
  lemma RegisterModelSkipsFields()
    ensures var item := ModelDef("Item", None, []);
      var order := ModelDef("Order", None, [Field("item", ModelT("Item"), true, None)]);
      var classes := map["Item" := item, "Order" := order];
      ClassesOk(classes)
      && Complete(Registry(map[], map[]), classes)
      && !Complete(RegisterModel(Registry(map[], map[]), order), classes)
  {
    var item := ModelDef("Item", None, []);
    var order := ModelDef("Order", None, [Field("item", ModelT("Item"), true, None)]);
    var classes := map["Item" := item, "Order" := order];
    assert FieldModels(order.fields) == {"Item"} by {
      assert order.fields[1..] == [];
    }
    var r := RegisterModel(Registry(map[], map[]), order);
    assert "Item" !in r.models.Keys;
  }
}
