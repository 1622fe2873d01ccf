/** The two text emitters of the generator: the TypeScript interface of a Pydantic
    model and the exported function stub of a command. Each yields its lines (joined
    with newlines in the output file) and the model names its types refer to. */
module Emit {
  import opened Common
  import opened Strings
  import opened Casing
  import opened TypeHints
  import opened TypeMapping
  import opened Registry

  /** Lines of TypeScript and the model names they mention. */
  datatype Emitted = Emitted(lines: seq<string>, refs: set<string>)

  function Text(e: Emitted): string {
    Join(e.lines, "\n")
  }

  /** Python truthiness of an optional docstring or description. */
  predicate Present(s: Option<string>) {
    s.Some? && s.value != ""
  }

  lemma StripExcludes(s: string, c: char)
    requires c !in s
    ensures c !in Strip(s)
  {
    var l := StripLeft(s);
    assert l == s[|s| - |l|..];
    var r := StripRight(l);
    assert r == l[..|r|];
  }

  /** Every piece `split` yields is free of a character the whole string lacks. */
  lemma {:induction false} SplitExcludes(s: string, sep: char, c: char)
    requires c !in s
    ensures forall i :: 0 <= i < |Split(s, sep)| ==> c !in Split(s, sep)[i]
    decreases |s|
  {
    if |s| > 0 {
      assert c !in s[1..];
      SplitExcludes(s[1..], sep, c);
    }
  }

  /** Each docstring line stripped and prefixed with ` * `. */
  function StarLines(ls: seq<string>): (r: seq<string>)
    ensures |r| == |ls|
    ensures forall i :: 0 <= i < |ls| ==> r[i] == " * " + Strip(ls[i])
  {
    seq(|ls|, i requires 0 <= i < |ls| => " * " + Strip(ls[i]))
  }

  /** The JSDoc block for a docstring: the stripped text's lines, each stripped and
      starred, between the opening and closing markers; one output line per
      docstring line, none of them broken. */
  function DocBlock(doc: string): (r: seq<string>)
    ensures |r| == |Split(Strip(doc), '\n')| + 2
    ensures r[0] == "/**" && r[|r| - 1] == " */"
    ensures forall i :: 0 <= i < |r| ==> '\n' !in r[i]
    ensures forall i :: 0 < i < |r| - 1 ==> r[i] == " * " + Strip(Split(Strip(doc), '\n')[i - 1])
  {
    var ls := Split(Strip(doc), '\n');
    StarLinesExclude(ls);
    Frame(StarLines(ls))
  }

  /** Starring lines that have no line break leaves them without one. */
  lemma StarLinesExclude(ls: seq<string>)
    requires forall i :: 0 <= i < |ls| ==> '\n' !in ls[i]
    ensures forall i :: 0 <= i < |StarLines(ls)| ==> '\n' !in StarLines(ls)[i]
  {
    forall i | 0 <= i < |ls| ensures '\n' !in StarLines(ls)[i] {
      StripExcludes(ls[i], '\n');
      assert StarLines(ls)[i] == " * " + Strip(ls[i]);
    }
  }

  /** Lines between the JSDoc opening and closing markers. */
  function Frame(body: seq<string>): (r: seq<string>)
    ensures |r| == |body| + 2 && r[0] == "/**" && r[|body| + 1] == " */"
    ensures forall i :: 0 < i <= |body| ==> r[i] == body[i - 1]
    ensures (forall i :: 0 <= i < |body| ==> '\n' !in body[i]) ==> forall i :: 0 <= i < |r| ==> '\n' !in r[i]
  {
    ["/**"] + body + [" */"]
  }

  function DocLines(doc: Option<string>): (r: seq<string>)
    ensures !Present(doc) ==> r == []
    ensures Present(doc) ==> r == DocBlock(doc.value)
  {
    if Present(doc) then DocBlock(doc.value) else []
  }

  // ---------------------------------------------------------------- reading a doc block back

  /** The text of a JSDoc line: what follows its ` * ` prefix. */
  function Unstar(line: string): Option<string> {
    if |line| >= 3 && line[..3] == " * " then Some(line[3..]) else None
  }

  /** What a reader takes from a JSDoc block: the text of each inner line, or `None`
      when the lines are not framed by `/**` and ` */` with starred lines between. */
  function ReadDoc(lines: seq<string>): Option<seq<string>> {
    if |lines| < 2 || lines[0] != "/**" || lines[|lines| - 1] != " */" then None
    else
      var inner := lines[1..|lines| - 1];
      if forall i :: 0 <= i < |inner| ==> Unstar(inner[i]).Some? then
        Some(seq(|inner|, i requires 0 <= i < |inner| && Unstar(inner[i]).Some? => Unstar(inner[i]).value))
      else None
  }

  /** The docstring as a reader of the block sees it: the lines of the stripped
      text, each stripped. */
  function DocText(doc: string): (r: seq<string>)
    ensures |r| == |Split(Strip(doc), '\n')|
  {
    var ls := Split(Strip(doc), '\n');
    seq(|ls|, i requires 0 <= i < |ls| => Strip(ls[i]))
  }

  /** Reading a doc block back gives the docstring's stripped lines. */
  lemma DocBlockReadsBack(doc: string)
    ensures ReadDoc(DocBlock(doc)) == Some(DocText(doc))
  {
    var r := DocBlock(doc);
    var inner := r[1..|r| - 1];
    forall i | 0 <= i < |inner| ensures Unstar(inner[i]) == Some(DocText(doc)[i]) {
      assert inner[i] == r[i + 1];
      var t := Strip(Split(Strip(doc), '\n')[i]);
      assert inner[i] == " * " + t;
      assert inner[i][..3] == " * " && inner[i][3..] == t;
    }
    var read := seq(|inner|, i requires 0 <= i < |inner| && Unstar(inner[i]).Some? => Unstar(inner[i]).value);
    assert read == DocText(doc);
  }

  /** A docstring whose lines carry no surrounding whitespace is recovered whole,
      once stripped, by joining the lines read back from its block. */
  lemma DocBlockRoundTrip(doc: string)
    requires forall i :: 0 <= i < |Split(Strip(doc), '\n')| ==> Strip(Split(Strip(doc), '\n')[i]) == Split(Strip(doc), '\n')[i]
    ensures ReadDoc(DocBlock(doc)).Some? && Join(ReadDoc(DocBlock(doc)).value, "\n") == Strip(doc)
  {
    DocBlockReadsBack(doc);
    var ls := Split(Strip(doc), '\n');
    assert DocText(doc) == ls;
    JoinSplit(Strip(doc), '\n');
  }

  /** A class with a docstring gets a block that reads back as that docstring; one
      without (or with an empty one) gets no lines at all, which no reader takes for
      a block. */
  lemma DocLinesReadBack(doc: Option<string>)
    ensures ReadDoc(DocLines(doc)).Some? <==> Present(doc)
    ensures Present(doc) ==> ReadDoc(DocLines(doc)) == Some(DocText(doc.value))
    ensures !Present(doc) ==> DocLines(doc) == []
  {
    if Present(doc) {
      DocBlockReadsBack(doc.value);
    }
  }

  // ---------------------------------------------------------------- interfaces

  /** A member is marked `?` when the field has a default or is annotated with a
      `typing.Union` that includes `None`. */
  predicate OptionalField(f: Field) {
    !f.required || IsNullableUnion(f.annotation)
  }

  function MemberLine(f: Field): string {
    "    " + (CamelCase(f.name) + (if OptionalField(f) then "?" else "")) + ": " + TsTypeAsWritten(f.annotation) + ";"
  }

  /** One field's lines: its description as a one-line JSDoc, then the member. */
  function FieldLines(f: Field): (r: seq<string>)
    ensures |r| >= 1 && r[|r| - 1] == MemberLine(f)
    ensures |r| == 2 <==> Present(f.description)
    ensures Present(f.description) ==> r[0] == "    /** " + f.description.value + " */"
  {
    (if Present(f.description) then ["    /** " + f.description.value + " */"] else []) + [MemberLine(f)]
  }

  /** The interface body: every field's lines, in declaration order. */
  function FieldsLines(fs: seq<Field>): seq<string> {
    Flatten(FieldBlocks(fs))
  }

  function FieldBlocks(fs: seq<Field>): (r: seq<seq<string>>)
    ensures |r| == |fs| && forall i :: 0 <= i < |fs| ==> r[i] == FieldLines(fs[i])
  {
    seq(|fs|, i requires 0 <= i < |fs| => FieldLines(fs[i]))
  }

  function Flatten<T>(blocks: seq<seq<T>>): seq<T> {
    if |blocks| == 0 then [] else blocks[0] + Flatten(blocks[1..])
  }

  /** Flattening distributes over concatenation. */
  lemma {:induction false} FlattenAppend<T>(a: seq<seq<T>>, b: seq<seq<T>>)
    ensures Flatten(a + b) == Flatten(a) + Flatten(b)
  {
    if |a| > 0 {
      assert (a + b)[1..] == a[1..] + b;
      FlattenAppend(a[1..], b);
    } else {
      assert a + b == b;
    }
  }

  /** Flattening the first `n + 1` blocks adds block `n` to the flattened first `n`. */
  lemma FlattenStep<T>(blocks: seq<seq<T>>, n: nat)
    requires n < |blocks|
    ensures Flatten(blocks[..n + 1]) == Flatten(blocks[..n]) + blocks[n]
  {
    assert blocks[..n + 1] == blocks[..n] + [blocks[n]];
    FlattenAppend(blocks[..n], [blocks[n]]);
    assert Flatten([blocks[n]]) == blocks[n] + Flatten([]);
  }

  /** The flattened first blocks are a prefix of the whole flattening. */
  lemma FlattenPrefix<T>(blocks: seq<seq<T>>, n: nat, m: nat)
    requires n <= m <= |blocks|
    ensures Flatten(blocks[..m]) == Flatten(blocks[..n]) + Flatten(blocks[n..m])
  {
    assert blocks[..m] == blocks[..n] + blocks[n..m];
    FlattenAppend(blocks[..n], blocks[n..m]);
  }

  function FieldsRefs(fs: seq<Field>): set<string> {
    if |fs| == 0 then {} else MapType(fs[0].annotation, false).refs + FieldsRefs(fs[1..])
  }

  /** `_generate_model_interface`. */
  function Interface(m: ModelDef): (r: Emitted)
    ensures Laid(r.lines, DocLines(m.doc), "export interface " + m.name + " {", FieldsLines(m.fields), "}")
    ensures r.refs <= FieldModels(m.fields)
  {
    Emitted(Enclose(DocLines(m.doc), "export interface " + m.name + " {", FieldsLines(m.fields), "}"),
            InterfaceModels(m))
  }

  /** `l` is `a`, then `x`, then `b`, then `y`. */
  predicate Laid(l: seq<string>, a: seq<string>, x: string, b: seq<string>, y: string) {
    |l| == |a| + |b| + 2 && l[..|a|] == a && l[|a|] == x
    && l[|a| + 1..|l| - 1] == b && l[|l| - 1] == y
  }

  /** `a + [x] + b + [y]`, with where each piece sits. */
  function Enclose(a: seq<string>, x: string, b: seq<string>, y: string): (l: seq<string>)
    ensures Laid(l, a, x, b, y)
  {
    var l := a + [x] + b + [y];
    assert l[..|a|] == a;
    assert l[|a| + 1..|l| - 1] == b;
    l
  }

  /** The models an interface mentions: those its field types reference. */
  function InterfaceModels(m: ModelDef): (r: set<string>)
    ensures r <= FieldModels(m.fields)
  {
    FieldsRefsWithinModels(m.fields);
    FieldsRefs(m.fields)
  }

  lemma {:induction false} FieldsRefsWithinModels(fs: seq<Field>)
    ensures FieldsRefs(fs) <= FieldModels(fs)
  {
    if |fs| > 0 {
      RefsWithinModels(fs[0].annotation, false);
      FieldsRefsWithinModels(fs[1..]);
    }
  }

  /** No model hides under a generic origin the mapping does not look inside. */
  ghost predicate FieldsVisible(fs: seq<Field>) {
    forall i :: 0 <= i < |fs| ==> WellFormed(fs[i].annotation) && Visible(fs[i].annotation)
  }

  /** An interface refers to exactly the models the registry's walk collects from the
      fields, so every nested model it needs is queued for generation. */
  lemma {:induction false} InterfaceRefsAreFieldModels(fs: seq<Field>)
    requires FieldsVisible(fs)
    ensures FieldsRefs(fs) == FieldModels(fs)
  {
    if |fs| > 0 {
      RefsAreModels(fs[0].annotation, false);
      assert FieldsVisible(fs[1..]) by {
        forall i | 0 <= i < |fs[1..]| ensures WellFormed(fs[1..][i].annotation) && Visible(fs[1..][i].annotation) {
          assert fs[1..][i] == fs[i + 1];
        }
      }
      InterfaceRefsAreFieldModels(fs[1..]);
    }
  }

  /** The line of the interface body that holds field `i`'s member: the last line
      of the first `i + 1` fields' lines. */
  function MemberIndex(fs: seq<Field>, i: nat): int
    requires i < |fs|
  {
    |Flatten(FieldBlocks(fs)[..i + 1])| - 1
  }

  /** Field `i`'s member line sits at `MemberIndex(fs, i)` of the interface body. */
  lemma MemberLineAt(fs: seq<Field>, i: nat)
    requires i < |fs|
    ensures 0 <= MemberIndex(fs, i) < |FieldsLines(fs)|
    ensures FieldsLines(fs)[MemberIndex(fs, i)] == MemberLine(fs[i])
  {
    var blocks := FieldBlocks(fs);
    FlattenStep(blocks, i);
    FlattenPrefix(blocks, i + 1, |blocks|);
    assert blocks[..|blocks|] == blocks;
    var own := blocks[i];
    assert own == FieldLines(fs[i]) && own[|own| - 1] == MemberLine(fs[i]);
    var k := MemberIndex(fs, i);
    assert Flatten(blocks[..i + 1])[k] == own[|own| - 1];
  }

  /** The member lines follow the fields' declaration order: an earlier field's
      member line comes before a later one's. */
  lemma MemberLinesInOrder(fs: seq<Field>, i: nat, j: nat)
    requires i < j < |fs|
    ensures 0 <= MemberIndex(fs, i) < MemberIndex(fs, j) < |FieldsLines(fs)|
    ensures FieldsLines(fs)[MemberIndex(fs, i)] == MemberLine(fs[i])
    ensures FieldsLines(fs)[MemberIndex(fs, j)] == MemberLine(fs[j])
  {
    MemberLineAt(fs, i);
    MemberLineAt(fs, j);
    var blocks := FieldBlocks(fs);
    FlattenPrefix(blocks, i + 1, j);
    FlattenStep(blocks, j);
    assert |blocks[j]| >= 1;
  }

  // ---------------------------------------------------------------- reading a member line back

  /** What a TypeScript reader takes from `    key?: type;`: the key, whether it is
      optional, and the type text. */
  datatype Member = Member(key: string, optional: bool, typeText: string)

  function ReadMember(line: string): (r: Option<Member>) {
    if |line| < 5 || line[..4] != "    " || line[|line| - 1] != ';' then None
    else ReadBody(line[4..|line| - 1])
  }

  /** `key?: type` or `key: type`, the key ending at the first colon. */
  function ReadBody(body: string): (r: Option<Member>) {
    var head := Split(body, ':')[0];
    var after := body[|head|..];
    if |after| < 2 || after[..2] != ": " then None
    else if |head| > 0 && head[|head| - 1] == '?' then Some(Member(head[..|head| - 1], true, after[2..]))
    else Some(Member(head, false, after[2..]))
  }

  lemma ReadLine(body: string)
    ensures ReadMember("    " + body + ";") == ReadBody(body)
  {
    var line := "    " + body + ";";
    assert line[..4] == "    ";
    assert line[4..|line| - 1] == body;
  }

  lemma ReadBodyOf(head: string, ty: string)
    requires ':' !in head
    ensures ReadBody(head + ": " + ty) == Some(
      if |head| > 0 && head[|head| - 1] == '?' then Member(head[..|head| - 1], true, ty) else Member(head, false, ty))
  {
    var body := head + ": " + ty;
    assert body == head + [':'] + (" " + ty);
    SplitAtSeparator(head, ':', " " + ty);
    assert Split(body, ':')[0] == head;
    var after := body[|head|..];
    assert after == ": " + ty;
    assert after[..2] == ": " && after[2..] == ty;
  }

  /** A title-cased piece gains no character that is not a letter. */
  lemma TitleKeeps(s: string, c: char)
    requires !IsLetter(c) && c !in s
    ensures c !in Title(s)
  {
    var r := Title(s);
    forall i | 0 <= i < |r| ensures r[i] != c {
      if !IsLetter(s[i]) {
        assert r[i] == s[i];
      }
    }
  }

  /** camelCasing a name introduces no punctuation. */
  lemma CamelCaseKeeps(name: string, c: char)
    requires !IsLetter(c) && c !in name && c != '_'
    ensures c !in CamelCase(name)
  {
    var parts := Split(name, '_');
    SplitExcludes(name, '_', c);
    var tail := TitleAll(parts[1..]);
    forall i | 0 <= i < |tail| ensures c !in tail[i] {
      assert parts[1..][i] == parts[i + 1];
      TitleKeeps(parts[i + 1], c);
    }
    JoinExcludes(tail, "", c);
  }

  /** A field name as Python allows it: no `:` and no `?`. */
  predicate PlainName(n: string) {
    ':' !in n && '?' !in n
  }

  lemma ReadsBack(key: string, optional: bool, ty: string)
    requires ':' !in key && '?' !in key
    ensures ReadMember("    " + (key + (if optional then "?" else "")) + ": " + ty + ";") == Some(Member(key, optional, ty))
  {
    var head := key + (if optional then "?" else "");
    assert "    " + head + ": " + ty + ";" == "    " + (head + ": " + ty) + ";";
    ReadLine(head + ": " + ty);
    assert ':' !in head;
    ReadBodyOf(head, ty);
    if optional {
      assert head[..|head| - 1] == key;
    } else {
      assert head == key;
      if |key| > 0 {
        assert key[|key| - 1] in key;
      }
    }
  }

  /** The member line of a field reads back as its camelCase key, its optional
      mark and its TypeScript type: nothing is lost in writing it out. */
  lemma MemberLineReadsBack(f: Field)
    requires PlainName(f.name)
    ensures ReadMember(MemberLine(f)) == Some(Member(CamelCase(f.name), OptionalField(f), TsTypeAsWritten(f.annotation)))
  {
    CamelCaseKeeps(f.name, ':');
    CamelCaseKeeps(f.name, '?');
    ReadsBack(CamelCase(f.name), OptionalField(f), TsTypeAsWritten(f.annotation));
  }

  /** A conventional snake_case field is read back, through the runtime's request-key
      conversion, under its Python name. */
  lemma MemberKeyReachesField(f: Field)
    requires PlainName(f.name) && SnakeName(f.name)
    ensures ReadMember(MemberLine(f)).Some? && WireKey(ReadMember(MemberLine(f)).value.key) == f.name
  {
    MemberLineReadsBack(f);
    WireKeyUndoesCamelCase(f.name);
  }

  // ---------------------------------------------------------------- command stubs

  /** The `{ key: type; ... }` argument object type of a command's parameters. */
  function ParamEntries(ps: seq<(string, TypeHint)>): (r: seq<string>)
    ensures |r| == |ps|
  {
    seq(|ps|, i requires 0 <= i < |ps| => CamelCase(ps[i].0) + ": " + TsTypeAsWritten(ps[i].1))
  }

  /** Each argument entry reads back as the parameter's camelCase key, required,
      with the parameter's type text. */
  lemma ParamEntryReadsBack(ps: seq<(string, TypeHint)>, i: nat)
    requires i < |ps| && PlainName(ps[i].0)
    ensures ReadBody(ParamEntries(ps)[i]) == Some(Member(CamelCase(ps[i].0), false, TsTypeAsWritten(ps[i].1)))
  {
    var key := CamelCase(ps[i].0);
    CamelCaseKeeps(ps[i].0, ':');
    CamelCaseKeeps(ps[i].0, '?');
    ReadBodyOf(key, TsTypeAsWritten(ps[i].1));
    if |key| > 0 {
      assert key[|key| - 1] in key;
    }
  }

  function ParamsRefs(ps: seq<(string, TypeHint)>): (r: set<string>)
    ensures r <= ParamModels(ps)
  {
    if |ps| == 0 then {}
    else
      RefsWithinModels(ps[0].1, false);
      MapType(ps[0].1, false).refs + ParamsRefs(ps[1..])
  }

  function ParamsType(ps: seq<(string, TypeHint)>): string {
    "{ " + Join(ParamEntries(ps), "; ") + " }"
  }

  /** The stub's result type: a channel command streams its `Channel[T]` element
      (`unknown` when the hint has none); any other command resolves to its return
      type, with `None`, a missing annotation and a type written `void` or `null`
      all shown as `void`: a promise never resolves to `null`. */
  function StubReturn(cmd: CommandInfo): (r: Mapped)
    ensures cmd.hasChannel && ChannelElement(cmd.channelHint).None? ==> r == Mapped("unknown", {})
    ensures cmd.hasChannel && ChannelElement(cmd.channelHint).Some? ==> r == MapType(ChannelElement(cmd.channelHint).value, false)
    ensures !cmd.hasChannel && (cmd.returnType.None? || cmd.returnType == Some(NoneT)) ==> r.text == "void"
    ensures !cmd.hasChannel && cmd.returnType.Some? && MapType(cmd.returnType.value, false).text in {"void", "null"}
      ==> r.text == "void"
    ensures !cmd.hasChannel && cmd.returnType.Some? && MapType(cmd.returnType.value, false).text !in {"void", "null"}
      ==> r == MapType(cmd.returnType.value, false)
    ensures !cmd.hasChannel ==> r.text != "null"
    ensures !cmd.hasChannel && cmd.returnType.Some? ==> r.refs == MapType(cmd.returnType.value, false).refs
    ensures r.refs <= CommandModels(cmd)
  {
    if cmd.hasChannel then
      var e := ChannelElement(cmd.channelHint);
      if e.Some? then
        RefsWithinModels(e.value, false);
        MapType(e.value, false)
      else Mapped("unknown", {})
    else if cmd.returnType.None? then Mapped("void", {})
    else
      var t := cmd.returnType.value;
      RefsWithinModels(t, false);
      var m := MapType(t, false);
      if t == NoneT || m.text == "void" || m.text == "null" then m.(text := "void") else m
  }

  /** The line that performs the call, quoting the registry's command name. */
  function CallLine(cmd: CommandInfo): string {
    var target := if cmd.hasChannel then "createChannel" else "request";
    ("    return " + target + "(") + "\"" + cmd.name + "\"" + (", " + CallArgs(cmd) + ");")
  }

  /** What the stub passes as the request body: its `args` object when the command
      has parameters, and an empty object otherwise. */
  function CallArgs(cmd: CommandInfo): string {
    if |cmd.params| > 0 then "args" else "{}"
  }

  /** `export [async] function name(args: {...}): Promise<T> {`, or with
      `BridgeChannel<T>` for a streaming command. */
  function SignatureLine(cmd: CommandInfo): string {
    SignatureHead(cmd) + SignatureArgs(cmd) + SignatureTail(cmd)
  }

  function SignatureArgs(cmd: CommandInfo): string {
    if |cmd.params| > 0 then "args: " + ParamsType(cmd.params) else ""
  }

  /** `_generate_command_function`. */
  function CommandStub(cmd: CommandInfo): (r: Emitted)
    ensures |r.lines| == |DocLines(cmd.doc)| + 3
    ensures r.lines[..|DocLines(cmd.doc)|] == DocLines(cmd.doc) && r.lines[|r.lines| - 1] == "}"
    ensures Opens(r.lines[|DocLines(cmd.doc)|], SignatureHead(cmd))
    ensures Closes(r.lines[|DocLines(cmd.doc)|], SignatureTail(cmd))
    ensures |cmd.params| == 0 <==> |r.lines[|DocLines(cmd.doc)|]| == |SignatureHead(cmd)| + |SignatureTail(cmd)|
    ensures |cmd.params| > 0
      ==> r.lines[|DocLines(cmd.doc)|] == SignatureHead(cmd) + ("args: " + ParamsType(cmd.params)) + SignatureTail(cmd)
    ensures |cmd.params| == 0 ==> r.lines[|DocLines(cmd.doc)|] == SignatureHead(cmd) + SignatureTail(cmd)
    ensures Opens(r.lines[|DocLines(cmd.doc)| + 1], "    return " + (if cmd.hasChannel then "createChannel(" else "request("))
    ensures Closes(r.lines[|DocLines(cmd.doc)| + 1], ", " + CallArgs(cmd) + ");")
    ensures '"' !in cmd.name ==> Quoted(r.lines[|DocLines(cmd.doc)| + 1]) == Some(cmd.name)
    ensures r.refs <= CommandModels(cmd)
  {
    var d := DocLines(cmd.doc);
    var lines := d + [SignatureLine(cmd), CallLine(cmd), "}"];
    Trailed(d, SignatureLine(cmd), CallLine(cmd), "}");
    SignatureShape(cmd);
    CallShape(cmd);
    CallQuotesName(cmd);
    Emitted(lines, StubModels(cmd))
  }

  /** Where the pieces of `a + [x, y, z]` sit. */
  lemma Trailed<T>(a: seq<T>, x: T, y: T, z: T)
    ensures var l := a + [x, y, z];
      |l| == |a| + 3 && l[..|a|] == a && l[|a|] == x && l[|a| + 1] == y && l[|a| + 2] == z
  {
    assert (a + [x, y, z])[..|a|] == a;
  }

  predicate Opens(line: string, head: string) {
    |head| <= |line| && line[..|head|] == head
  }

  predicate Closes(line: string, tail: string) {
    |tail| <= |line| && line[|line| - |tail|..] == tail
  }

  /** How a stub's signature starts: a plain command is an async function, a
      streaming one a plain function, under the camelCase command name. */
  function SignatureHead(cmd: CommandInfo): string {
    (if cmd.hasChannel then "export function " else "export async function ") + CamelCase(cmd.name) + "("
  }

  /** How a stub's signature ends: a promise of the result type, or a channel of it. */
  function SignatureTail(cmd: CommandInfo): string {
    (if cmd.hasChannel then "): BridgeChannel<" else "): Promise<") + StubReturn(cmd).text + "> {"
  }

  lemma SignatureShape(cmd: CommandInfo)
    ensures Opens(SignatureLine(cmd), SignatureHead(cmd)) && Closes(SignatureLine(cmd), SignatureTail(cmd))
    ensures |cmd.params| == 0 <==> |SignatureLine(cmd)| == |SignatureHead(cmd)| + |SignatureTail(cmd)|
    ensures |cmd.params| > 0 ==> SignatureLine(cmd) == SignatureHead(cmd) + ("args: " + ParamsType(cmd.params)) + SignatureTail(cmd)
    ensures |cmd.params| == 0 ==> SignatureLine(cmd) == SignatureHead(cmd) + SignatureTail(cmd)
  {
    Framed(SignatureHead(cmd), SignatureArgs(cmd), SignatureTail(cmd));
    if |cmd.params| == 0 {
      assert SignatureHead(cmd) + "" == SignatureHead(cmd);
    }
  }

  lemma Framed(head: string, mid: string, tail: string)
    ensures Opens(head + mid + tail, head) && Closes(head + mid + tail, tail)
    ensures |head + mid + tail| == |head| + |mid| + |tail|
  {
    var line := head + mid + tail;
    assert line[..|head|] == head;
    assert line[|line| - |tail|..] == tail;
  }

  lemma CallShape(cmd: CommandInfo)
    ensures Opens(CallLine(cmd), "    return " + (if cmd.hasChannel then "createChannel(" else "request("))
    ensures Closes(CallLine(cmd), ", " + CallArgs(cmd) + ");")
  {
    var target := if cmd.hasChannel then "createChannel" else "request";
    var head := "    return " + target + "(";
    var tail := ", " + CallArgs(cmd) + ");";
    assert CallLine(cmd) == head + ("\"" + cmd.name + "\"" + tail);
    Framed(head + "\"" + cmd.name + "\"", "", tail);
    assert head + "\"" + cmd.name + "\"" + "" == head + "\"" + cmd.name + "\"";
  }

  /** The models a command's stub mentions: those of its parameters and of its result. */
  function StubModels(cmd: CommandInfo): (r: set<string>)
    ensures r <= CommandModels(cmd)
  {
    ParamsRefs(cmd.params) + StubReturn(cmd).refs
  }

  /** The first double-quoted string on a line. */
  function Quoted(line: string): (r: Option<string>) {
    var pieces := Split(line, '"');
    if |pieces| >= 3 then Some(pieces[1]) else None
  }

  /** The stub calls the bridge with the command's registered (snake_case) name, not
      the camelCase function name, so the HTTP route is the one the registry holds. */
  lemma StubCallsRegisteredName(cmd: CommandInfo)
    requires '"' !in cmd.name
    ensures Quoted(CallLine(cmd)) == Some(cmd.name)
  {
    var target := if cmd.hasChannel then "createChannel" else "request";
    QuotedOf("    return " + target + "(", cmd.name, ", " + CallArgs(cmd) + ");");
  }

  lemma CallQuotesName(cmd: CommandInfo)
    ensures '"' !in cmd.name ==> Quoted(CallLine(cmd)) == Some(cmd.name)
  {
    if '"' !in cmd.name {
      StubCallsRegisteredName(cmd);
    }
  }

  lemma QuotedOf(pre: string, x: string, post: string)
    requires '"' !in pre && '"' !in x
    ensures Quoted(pre + "\"" + x + "\"" + post) == Some(x)
  {
    assert pre + "\"" + x + "\"" + post == pre + ['"'] + (x + ['"'] + post);
    SplitAtSeparator(pre, '"', x + ['"'] + post);
    SplitAtSeparator(x, '"', post);
  }

  /** Each argument key of the stub reaches the Python parameter it stands for once
      the runtime converts request keys back to snake_case. */
  lemma StubKeysReachParams(ps: seq<(string, TypeHint)>, i: nat)
    requires i < |ps| && PlainName(ps[i].0) && SnakeName(ps[i].0)
    ensures ReadBody(ParamEntries(ps)[i]).Some?
    ensures WireKey(ReadBody(ParamEntries(ps)[i]).value.key) == ps[i].0
  {
    ParamEntryReadsBack(ps, i);
    WireKeyUndoesCamelCase(ps[i].0);
  }

  /** The signature line of a stub with parameters holds every parameter entry,
      whole and in declaration order. */
  lemma StubSignatureHoldsEntries(cmd: CommandInfo) returns (at: seq<nat>)
    requires |cmd.params| > 0
    ensures InOrder(CommandStub(cmd).lines[|DocLines(cmd.doc)|], ParamEntries(cmd.params), at)
  {
    var entries := ParamEntries(cmd.params);
    var joined := Join(entries, "; ");
    var a := JoinInOrder(entries, "; ");
    var head, tail := SignatureHead(cmd), SignatureTail(cmd);
    assert ParamsType(cmd.params) == "{ " + joined + " }";
    Regroup(head, "args: ", "{ ", joined, " }", tail);
    at := InOrderInfix(head + "args: " + "{ ", joined, entries, a, " }" + tail);
  }

  lemma Regroup(h: string, a: string, b: string, j: string, c: string, t: string)
    ensures h + (a + (b + j + c)) + t == (h + a + b) + j + (c + t)
  {
  }

  /** Pieces in order in `x` stay in order, shifted, in `u + x + v`. */
  lemma InOrderInfix(u: string, x: string, xs: seq<string>, xa: seq<nat>, v: string) returns (at: seq<nat>)
    requires InOrder(x, xs, xa)
    ensures InOrder(u + x + v, xs, at)
  {
    InOrderNothing(u);
    InOrderConcat(u, [], [], x, xs, xa);
    assert [] + xs == xs;
    InOrderNothing(v);
    InOrderConcat(u + x, xs, [] + Shift(xa, |u|), v, [], []);
    assert xs + [] == xs;
    at := [] + Shift(xa, |u|) + Shift([], |u + x|);
  }

  /** Every parameter entry can be read back out of the stub's signature line as
      the parameter's camelCase key, required, with its type text. */
  lemma StubArgsReadBack(cmd: CommandInfo, i: nat) returns (p: nat)
    requires i < |cmd.params| && PlainName(cmd.params[i].0)
    ensures HoldsEntry(CommandStub(cmd).lines[|DocLines(cmd.doc)|], cmd.params, i, p)
  {
    var at := StubSignatureHoldsEntries(cmd);
    EntryReadsBackIn(CommandStub(cmd).lines[|DocLines(cmd.doc)|], cmd.params, at, i);
    p := at[i];
  }

  /** At offset `p` of `text` sits parameter `i`'s entry, which reads back as the
      parameter's camelCase key, required, with its type text. */
  predicate HoldsEntry(text: string, ps: seq<(string, TypeHint)>, i: nat, p: nat)
    requires i < |ps|
  {
    p + |ParamEntries(ps)[i]| <= |text|
    && ReadBody(text[p..p + |ParamEntries(ps)[i]|]) == Some(Member(CamelCase(ps[i].0), false, TsTypeAsWritten(ps[i].1)))
  }

  /** A parameter entry found in a text reads back from where it sits. */
  lemma EntryReadsBackIn(text: string, ps: seq<(string, TypeHint)>, at: seq<nat>, i: nat)
    requires InOrder(text, ParamEntries(ps), at) && i < |ps| && PlainName(ps[i].0)
    ensures HoldsEntry(text, ps, i, at[i])
  {
    ParamEntryReadsBack(ps, i);
  }
}
