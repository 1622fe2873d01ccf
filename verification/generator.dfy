/** `TypeScriptGenerator.generate`: the command stubs in name order, then the model
    interfaces by a worklist that keeps emitting until every model name a stub or an
    interface mentions has been handled, and the file that assembles both. */
module Generator {
  import opened Common
  import opened Strings
  import opened TypeHints
  import opened Registry
  import opened Emit

  /** The stub texts of the named commands, in the order given. */
  function StubTexts(names: seq<string>, commands: map<string, CommandInfo>): (r: seq<string>)
    requires forall i :: 0 <= i < |names| ==> names[i] in commands
    ensures |r| == |names|
  {
    if |names| == 0 then []
    else [Text(CommandStub(commands[names[0]]))] + StubTexts(names[1..], commands)
  }

  /** The interface texts of the named models, in the order given. */
  function InterfaceTexts(names: seq<string>, models: map<string, ModelDef>): (r: seq<string>)
    requires forall i :: 0 <= i < |names| ==> names[i] in models
    ensures |r| == |names|
  {
    if |names| == 0 then []
    else [Text(Interface(models[names[0]]))] + InterfaceTexts(names[1..], models)
  }

  function StubRefs(names: seq<string>, commands: map<string, CommandInfo>): set<string>
    requires forall i :: 0 <= i < |names| ==> names[i] in commands
  {
    if |names| == 0 then {} else StubModels(commands[names[0]]) + StubRefs(names[1..], commands)
  }

  lemma {:induction false} StubRefsAppend(a: seq<string>, x: string, commands: map<string, CommandInfo>)
    requires forall i :: 0 <= i < |a| ==> a[i] in commands
    requires x in commands
    ensures StubRefs(a + [x], commands) == StubRefs(a, commands) + StubModels(commands[x])
  {
    if |a| > 0 {
      assert (a + [x])[1..] == a[1..] + [x];
      StubRefsAppend(a[1..], x, commands);
    } else {
      assert [x][1..] == [];
    }
  }

  /** Every model name any interface of a registered model mentions. */
  ghost function InterfaceRefs(models: map<string, ModelDef>): set<string> {
    set n, x | n in models && x in InterfaceModels(models[n]) :: x
  }

  lemma StrictGrowth(u: set<string>, a: set<string>, b: set<string>)
    requires a < b && b <= u
    ensures |u - b| < |u - a|
  {
    var x :| x in b && x !in a;
    SubsetCard(u - b, (u - a) - {x});
  }

  /** The order `generate` emits in: the models given an interface, the commands
      given a stub, and every model name it handled. */
  datatype Output = Output(interfaces: seq<string>, commands: seq<string>, generated: set<string>)

  /** `generate`: one stub per command in name order, collecting the models they
      mention; then, seeded with every registered model, rounds of interfaces over
      the sorted names not yet handled, each interface queuing the models its
      fields mention, until a round adds nothing new. A queued name with no
      registered model is marked handled and emits nothing. */
  method Generate(reg: Registry) returns (out: Output)
    ensures out.commands == SortedOf(reg.commands.Keys)
    ensures out.interfaces == SortedOf(reg.models.Keys)
    ensures reg.models.Keys <= out.generated
    ensures StubRefs(SortedOf(reg.commands.Keys), reg.commands) <= out.generated
    ensures forall n :: n in reg.models ==> InterfaceModels(reg.models[n]) <= out.generated
  {
    var names := SortSet(reg.commands.Keys);
    SortedUnique(names, SortedOf(reg.commands.Keys));
    var queued := CollectStubRefs(reg.commands, names);
    var interfaces, generated := Worklist(reg.models, queued + reg.models.Keys);
    out := Output(interfaces, names, generated);
  }

  /** The stubs in the given order, gathering the model names they mention. */
  method CollectStubRefs(commands: map<string, CommandInfo>, names: seq<string>) returns (queued: set<string>)
    requires forall i :: 0 <= i < |names| ==> names[i] in commands
    ensures queued == StubRefs(names, commands)
  {
    queued := {};
    for i := 0 to |names|
      invariant queued == StubRefs(names[..i], commands)
    {
      assert names[..i + 1] == names[..i] + [names[i]];
      StubRefsAppend(names[..i], names[i], commands);
      queued := queued + StubModels(commands[names[i]]);
    }
    assert names[..|names|] == names;
  }

  /** The worklist's loop invariant: `generated` are the names handled so far, all
      queued; every handled model's references are queued; and after the first
      round every registered model has its interface, in sorted order. */
  ghost predicate Progress(models: map<string, ModelDef>, seed: set<string>, universe: set<string>,
    queued: set<string>, generated: set<string>, interfaces: seq<string>)
  {
    && generated <= queued <= universe
    && seed <= queued
    && (forall n :: n in generated && n in models ==> InterfaceModels(models[n]) <= queued)
    && (generated == {} ==> interfaces == [])
    && (generated != {} ==> models.Keys <= generated && interfaces == SortedOf(models.Keys))
  }

  /** One round keeps the invariant and handles at least one new name. */
  lemma RoundProgress(models: map<string, ModelDef>, seed: set<string>, universe: set<string>,
    queued: set<string>, generated: set<string>, interfaces: seq<string>,
    batch: seq<string>, emitted: seq<string>, refs: set<string>)
    requires models.Keys <= seed && InterfaceRefs(models) <= universe
    requires Progress(models, seed, universe, queued, generated, interfaces)
    requires queued - generated != {}
    requires StrictlySorted(batch) && Elems(batch) == queued - generated
    requires emitted == FilterIn(batch, models.Keys)
    requires forall n :: n in batch && n in models ==> InterfaceModels(models[n]) <= refs
    requires refs <= InterfaceRefs(models)
    ensures Progress(models, seed, universe, queued + refs, generated + Elems(batch), interfaces + emitted)
    ensures |universe - (generated + Elems(batch))| < |universe - generated|
  {
    RoundEmits(models, generated, batch, emitted);
    var g := generated + Elems(batch);
    assert g == queued;
    RoundCloses(models, generated, queued, batch, refs);
    StrictGrowth(universe, generated, g);
  }

  /** The first round emits every registered model in sorted order; later rounds
      emit nothing, the registered models being handled already. */
  lemma RoundEmits(models: map<string, ModelDef>, generated: set<string>, batch: seq<string>, emitted: seq<string>)
    requires StrictlySorted(batch) && emitted == FilterIn(batch, models.Keys)
    requires generated == {} ==> models.Keys <= Elems(batch)
    requires generated != {} ==> models.Keys <= generated && Elems(batch) !! generated
    ensures generated == {} ==> emitted == SortedOf(models.Keys)
    ensures generated != {} ==> emitted == []
  {
    if generated == {} {
      assert Elems(emitted) == models.Keys;
      SortedUnique(emitted, SortedOf(models.Keys));
    } else {
      assert Elems(emitted) == {};
      ElemsEmpty(emitted);
    }
  }

  lemma RoundCloses(models: map<string, ModelDef>, generated: set<string>, queued: set<string>, batch: seq<string>, refs: set<string>)
    requires forall n :: n in generated && n in models ==> InterfaceModels(models[n]) <= queued
    requires forall n :: n in batch && n in models ==> InterfaceModels(models[n]) <= refs
    ensures forall n :: n in generated + Elems(batch) && n in models ==> InterfaceModels(models[n]) <= queued + refs
  {
    forall n | n in generated + Elems(batch) && n in models ensures InterfaceModels(models[n]) <= queued + refs {
      if n !in generated {
        assert n in Elems(batch);
      }
    }
  }

  /** The interface worklist from a seed holding every registered model: all of them
      come out in the first round, in sorted order, and the loop stops once every
      name an interface mentions has been handled. */
  method Worklist(models: map<string, ModelDef>, seed: set<string>) returns (interfaces: seq<string>, generated: set<string>)
    requires models.Keys <= seed
    ensures interfaces == SortedOf(models.Keys)
    ensures seed <= generated
    ensures forall n :: n in models ==> InterfaceModels(models[n]) <= generated
  {
    var queued := seed;
    ghost var universe := seed + InterfaceRefs(models);
    generated := {};
    interfaces := [];
    while queued - generated != {}
      invariant Progress(models, seed, universe, queued, generated, interfaces)
      decreases |universe - generated|
    {
      var batch := SortSet(queued - generated);
      var emitted, refs := Round(models, batch);
      RoundProgress(models, seed, universe, queued, generated, interfaces, batch, emitted, refs);
      interfaces := interfaces + emitted;
      queued := queued + refs;
      generated := generated + Elems(batch);
    }
    if generated == {} {
      assert models.Keys == {};
      ElemsEmpty(SortedOf(models.Keys));
    }
  }

  /** One round of the worklist: an interface for each name of the batch that is a
      registered model, in batch order, and the model names those interfaces mention. */
  method Round(models: map<string, ModelDef>, batch: seq<string>) returns (emitted: seq<string>, refs: set<string>)
    ensures emitted == FilterIn(batch, models.Keys)
    ensures forall n :: n in batch && n in models ==> InterfaceModels(models[n]) <= refs
    ensures refs <= InterfaceRefs(models)
  {
    emitted := [];
    refs := {};
    for j := 0 to |batch|
      invariant emitted == FilterIn(batch[..j], models.Keys)
      invariant forall k :: 0 <= k < j ==> NameRefs(models, batch[k]) <= refs
      invariant refs <= InterfaceRefs(models)
    {
      var n := batch[j];
      assert batch[..j + 1] == batch[..j] + [n];
      FilterInAppend(batch[..j], [n], models.Keys);
      if n in models {
        emitted := emitted + [n];
      }
      NameRefsWithin(models, n);
      RefsStep(models, batch, j, refs);
      refs := refs + NameRefs(models, n);
    }
    assert batch[..|batch|] == batch;
    forall n | n in batch && n in models ensures InterfaceModels(models[n]) <= refs {
      var k :| 0 <= k < |batch| && batch[k] == n;
      assert NameRefs(models, batch[k]) <= refs;
    }
  }

  /** The models the interface for `n` references, none when `n` is not registered. */
  function NameRefs(models: map<string, ModelDef>, n: string): set<string> {
    if n in models then InterfaceModels(models[n]) else {}
  }

  lemma RefsStep(models: map<string, ModelDef>, batch: seq<string>, j: nat, refs: set<string>)
    requires j < |batch|
    requires forall k :: 0 <= k < j ==> NameRefs(models, batch[k]) <= refs
    ensures forall k :: 0 <= k < j + 1 ==> NameRefs(models, batch[k]) <= refs + NameRefs(models, batch[j])
  {
  }

  lemma NameRefsWithin(models: map<string, ModelDef>, n: string)
    ensures NameRefs(models, n) <= InterfaceRefs(models)
  {
  }

  /** The file header; the timestamp is a parameter, the clock not being modelled. */
  function Header(stamp: string): string {
    Banner + stamp + Imports
  }

  /** The banner line and the opening of the timestamp comment. */
  const Banner: string := "/* Auto-generated by PyBridge - DO NOT EDIT */\n/* Generated: "

  /** The end of the timestamp comment, the runtime imports and the re-exports. */
  const Imports: string :=
    " */\n\n"
      + "import { initBridge, request, createChannel, BridgeRequestError } from \"./_internal\";\n"
      + "import type { BridgeChannel, BridgeError } from \"./_internal\";\n\n"
      + "// Re-export initialization and error types\n"
      + "export { initBridge, BridgeRequestError };\n"
      + "export type { BridgeChannel, BridgeError };\n"

  /** The sections after the header: interfaces when there are any, then commands
      when there are any. */
  function Sections(interfaces: seq<string>, functions: seq<string>): seq<string> {
    (if |interfaces| > 0 then ["// ============ Interfaces ============\n", Join(interfaces, "\n\n"), ""] else [])
      + (if |functions| > 0 then ["\n// ============ Commands ============\n", Join(functions, "\n\n")] else [])
  }

  /** The client file: the header and the sections, joined with newlines. */
  function Document(stamp: string, reg: Registry, out: Output): (r: string)
    requires forall i :: 0 <= i < |out.interfaces| ==> out.interfaces[i] in reg.models
    requires forall i :: 0 <= i < |out.commands| ==> out.commands[i] in reg.commands
    ensures |Header(stamp)| <= |r| && r[..|Header(stamp)|] == Header(stamp)
    ensures |out.interfaces| == 0 && |out.commands| == 0 ==> r == Header(stamp)
  {
    var interfaces := InterfaceTexts(out.interfaces, reg.models);
    var functions := StubTexts(out.commands, reg.commands);
    assert |interfaces| == 0 && |functions| == 0 ==> Sections(interfaces, functions) == [];
    Assemble(Header(stamp), Sections(interfaces, functions))
  }

  /** The client file holds every interface text and then every command stub text,
      each whole, in the order generated, none overlapping the next. */
  lemma DocumentInOrder(stamp: string, reg: Registry, out: Output)
    requires forall i :: 0 <= i < |out.interfaces| ==> out.interfaces[i] in reg.models
    requires forall i :: 0 <= i < |out.commands| ==> out.commands[i] in reg.commands
    ensures exists at :: InOrder(Document(stamp, reg, out),
      InterfaceTexts(out.interfaces, reg.models) + StubTexts(out.commands, reg.commands), at)
  {
    var ifs := InterfaceTexts(out.interfaces, reg.models);
    var fns := StubTexts(out.commands, reg.commands);
    var at := SectionsInOrder(Header(stamp), ifs, fns);
    assert Document(stamp, reg, out) == Join([Header(stamp)] + Sections(ifs, fns), "\n");
  }

  /** The joined sections hold the interface texts and then the stub texts, in order. */
  lemma SectionsInOrder(h: string, ifs: seq<string>, fns: seq<string>) returns (at: seq<nat>)
    ensures InOrder(Join([h] + Sections(ifs, fns), "\n"), ifs + fns, at)
  {
    var parts := [h] + Sections(ifs, fns);
    var text := Join(parts, "\n");
    var at0 := JoinInOrder(parts, "\n");
    var ji, jf := Join(ifs, "\n\n"), Join(fns, "\n\n");
    var a1 := JoinInOrder(ifs, "\n\n");
    var a2 := JoinInOrder(fns, "\n\n");
    var p1: nat := if |ifs| > 0 then at0[2] else 0;
    var p2: nat := if |fns| > 0 then at0[|parts| - 1] else |text|;
    if |ifs| > 0 {
      assert parts[2] == ji;
    }
    if |fns| > 0 {
      assert parts[|parts| - 1] == jf;
      if |ifs| > 0 {
        assert 2 < |parts| - 1;
      }
    }
    assert p1 + |ji| <= p2 && p2 + |jf| <= |text|;
    assert text[p1..p1 + |ji|] == ji && text[p2..p2 + |jf|] == jf;
    at := Place(text, p1, ji, ifs, a1, p2, jf, fns, a2);
  }

  /** Two stretches of a text, the first ending before the second starts, keep the
      pieces each holds in order. */
  lemma Place(text: string, p1: nat, x: string, xs: seq<string>, xa: seq<nat>,
    p2: nat, y: string, ys: seq<string>, ya: seq<nat>) returns (at: seq<nat>)
    requires p1 + |x| <= p2 && p2 + |y| <= |text|
    requires text[p1..p1 + |x|] == x && text[p2..p2 + |y|] == y
    requires InOrder(x, xs, xa) && InOrder(y, ys, ya)
    ensures InOrder(text, xs + ys, at)
  {
    var u, m, v := text[..p1], text[p1 + |x|..p2], text[p2 + |y|..];
    assert text == u + x + m + y + v;
    at := Stitch(u, x, xs, xa, m, y, ys, ya, v);
  }

  /** Two runs of pieces, placed one after the other with any text around them. */
  lemma Stitch(u: string, x: string, xs: seq<string>, xa: seq<nat>, m: string, y: string, ys: seq<string>, ya: seq<nat>,
    v: string) returns (at: seq<nat>)
    requires InOrder(x, xs, xa) && InOrder(y, ys, ya)
    ensures InOrder(u + x + m + y + v, xs + ys, at)
  {
    InOrderNothing(u);
    InOrderNothing(m);
    InOrderNothing(v);
    InOrderConcat(u, [], [], x, xs, xa);
    var b1: seq<nat> := [] + Shift(xa, |u|);
    assert [] + xs == xs;
    InOrderConcat(u + x, xs, b1, m, [], []);
    var b2: seq<nat> := b1 + Shift([], |u + x|);
    assert xs + [] == xs;
    InOrderConcat(u + x + m, xs, b2, y, ys, ya);
    var b3: seq<nat> := b2 + Shift(ya, |u + x + m|);
    InOrderConcat(u + x + m + y, xs + ys, b3, v, [], []);
    at := b3 + Shift([], |u + x + m + y|);
    assert xs + ys + [] == xs + ys;
  }

  /** `"\n".join(sections)` with the header as the first section. */
  function Assemble(h: string, rest: seq<string>): (r: string)
    ensures |h| <= |r| && r[..|h|] == h
    ensures rest == [] ==> r == h
  {
    JoinHead(h, rest, "\n");
    Join([h] + rest, "\n")
  }

  lemma JoinHead(h: string, rest: seq<string>, sep: string)
    ensures |h| <= |Join([h] + rest, sep)| && Join([h] + rest, sep)[..|h|] == h
    ensures rest == [] ==> Join([h] + rest, sep) == h
  {
    if |rest| > 0 {
      assert ([h] + rest)[1..] == rest;
    } else {
      assert [h] + rest == [h];
    }
  }

  /** On a complete registry no stub or interface mentions a model without an
      interface: every name the output refers to is a registered model, and every
      registered model's interface is emitted. */
  lemma NoDanglingReferences(reg: Registry, classes: map<string, ModelDef>, names: seq<string>)
    requires Complete(reg, classes)
    requires forall i :: 0 <= i < |names| ==> names[i] in reg.commands
    ensures StubRefs(names, reg.commands) <= reg.models.Keys
    ensures forall n :: n in reg.models ==> InterfaceModels(reg.models[n]) <= reg.models.Keys
  {
    StubRefsRegistered(reg, classes, names);
    forall n | n in reg.models ensures InterfaceModels(reg.models[n]) <= reg.models.Keys {
      assert reg.models[n] == classes[n];
    }
  }

  lemma {:induction false} StubRefsRegistered(reg: Registry, classes: map<string, ModelDef>, names: seq<string>)
    requires Complete(reg, classes)
    requires forall i :: 0 <= i < |names| ==> names[i] in reg.commands
    ensures StubRefs(names, reg.commands) <= reg.models.Keys
  {
    if |names| > 0 {
      StubRefsRegistered(reg, classes, names[1..]);
    }
  }
}
