/** `_type_to_ts`: the TypeScript text the generator writes for a Python annotation,
    together with the model names it adds to `models_to_generate` on the way. The
    rule for a list or set of a union is given both as written (`inner + "[]"`) and
    corrected (the union parenthesised). The emitted client uses the rule as
    written; `Denote` is the TypeScript type each annotation is meant to become,
    which only the corrected text reads back as. */
module TypeMapping {
  import opened Common
  import opened Strings
  import opened TypeHints
  import opened TsSyntax

  /** `PYTHON_TO_TS_TYPES` on the builtin scalar classes. */
  function PrimTs(k: Prim): (r: string)
    ensures r == "string" <==> (k == Str || k == Bytes)
    ensures r == "number" <==> (k == Int || k == Float)
    ensures r == "boolean" <==> k == Bool
  {
    match k
    case Str => "string"
    case Bytes => "string"
    case Int => "number"
    case Float => "number"
    case Bool => "boolean"
  }

  /** `[a for a in args if a is not type(None)]`. */
  function NonNone(args: seq<TypeHint>): (r: seq<TypeHint>)
    ensures forall i :: 0 <= i < |r| ==> r[i] != NoneT && r[i] in args
    ensures forall a :: a in args && a != NoneT ==> a in r
    decreases |args|
  {
    if |args| == 0 then []
    else (if args[0] == NoneT then [] else [args[0]]) + NonNone(args[1..])
  }

  /** The `Optional[X]` shape: exactly one member besides `None`, and `None` present. */
  predicate IsOptional(args: seq<TypeHint>) {
    |NonNone(args)| == 1 && NoneT in args
  }

  /** TypeScript accepts only `string` and `number` as a `Record` key. */
  function IndexKey(k: string): (r: string)
    ensures r == "string" || r == "number"
    ensures (k == "string" || k == "number") ==> r == k
  {
    if k == "string" || k == "number" then k else "string"
  }

  /** The result of `_type_to_ts` and the names it adds to `models_to_generate`. */
  datatype Mapped = Mapped(text: string, refs: set<string>)

  function ArrayOfText(inner: Mapped, parenthesize: bool): Mapped {
    Mapped((if parenthesize then "(" + inner.text + ")" else inner.text) + "[]", inner.refs)
  }

  /** `_type_to_ts(hint, models_to_generate)`. With `parenthesize` a union element
      type of a list or set is wrapped in parentheses; without it, as written. */
  function MapType(t: TypeHint, parenthesize: bool): Mapped
    decreases t, 1
  {
    match t
    case NoneT => Mapped("null", {})
    case PrimT(k) => Mapped(PrimTs(k), {})
    case AnyT => Mapped("unknown", {})
    case UnionT(args) =>
      if IsOptional(args) then
        var x := NonNone(args)[0];
        var inner := MapType(x, parenthesize);
        Mapped(inner.text + " | null", inner.refs)
      else Mapped(Join(TextsOf(args, parenthesize), " | "), RefsOf(args, parenthesize))
    case PipeUnionT(_) => Mapped("unknown", {})
    case ListT(args) =>
      if |args| > 0 then ArrayOfText(MapType(args[0], parenthesize), parenthesize && args[0].UnionT?)
      else Mapped("unknown[]", {})
    case SetT(args) =>
      if |args| > 0 then ArrayOfText(MapType(args[0], parenthesize), parenthesize && args[0].UnionT?)
      else Mapped("unknown[]", {})
    case DictT(args) =>
      if |args| >= 2 then
        var key := MapType(args[0], parenthesize);
        var value := MapType(args[1], parenthesize);
        Mapped("Record<" + IndexKey(key.text) + ", " + value.text + ">", key.refs + value.refs)
      else Mapped("Record<string, unknown>", {})
    case TupleT(args) =>
      if |args| > 0 then Mapped("[" + Join(TextsOf(args, parenthesize), ", ") + "]", RefsOf(args, parenthesize))
      else Mapped("unknown[]", {})
    case ModelT(n) => Mapped(n, {n})
    case OtherT(_) => Mapped("unknown", {})
  }

  function TextsOf(ts: seq<TypeHint>, parenthesize: bool): (r: seq<string>)
    ensures |r| == |ts|
    decreases ts, 0
  {
    if |ts| == 0 then [] else [MapType(ts[0], parenthesize).text] + TextsOf(ts[1..], parenthesize)
  }

  function RefsOf(ts: seq<TypeHint>, parenthesize: bool): set<string>
    decreases ts, 0
  {
    if |ts| == 0 then {} else MapType(ts[0], parenthesize).refs + RefsOf(ts[1..], parenthesize)
  }

  /** The text the generator evidently means for an annotation: a union element
      type of a list or set is parenthesised before `[]`. */
  function TsType(t: TypeHint): string {
    MapType(t, true).text
  }

  /** The text `_type_to_ts` writes, with no parentheses around a union element
      type; this is the text the emitted client contains. */
  function TsTypeAsWritten(t: TypeHint): string {
    MapType(t, false).text
  }

  // ---------------------------------------------------------------- the models it collects

  lemma {:induction false} RefsWithinModels(t: TypeHint, p: bool)
    ensures MapType(t, p).refs <= Models(t)
    decreases t, 1
  {
    match t
    case UnionT(args) =>
      if IsOptional(args) {
        var x := NonNone(args)[0];
        var i :| 0 <= i < |args| && args[i] == x;
        RefsWithinModels(x, p);
        ModelsSeqMember(args, i);
      } else {
        RefsOfWithinModels(args, p);
      }
    case ListT(args) =>
      if |args| > 0 { RefsWithinModels(args[0], p); ModelsSeqMember(args, 0); }
    case SetT(args) =>
      if |args| > 0 { RefsWithinModels(args[0], p); ModelsSeqMember(args, 0); }
    case DictT(args) =>
      if |args| >= 2 {
        RefsWithinModels(args[0], p);
        RefsWithinModels(args[1], p);
        ModelsSeqMember(args, 0);
        ModelsSeqMember(args, 1);
      }
    case TupleT(args) => RefsOfWithinModels(args, p);
    case _ =>
  }

  lemma {:induction false} RefsOfWithinModels(ts: seq<TypeHint>, p: bool)
    ensures RefsOf(ts, p) <= ModelsSeq(ts)
    decreases ts, 0
  {
    if |ts| > 0 {
      RefsWithinModels(ts[0], p);
      RefsOfWithinModels(ts[1..], p);
    }
  }

  /** No model hides under a generic origin the mapping does not look inside. */
  ghost predicate Visible(t: TypeHint)
    decreases t
  {
    match t
    case OtherT(a) => ModelsSeq(a) == {}
    case UnionT(a) => forall i :: 0 <= i < |a| ==> Visible(a[i])
    case ListT(a) => forall i :: 0 <= i < |a| ==> Visible(a[i])
    case SetT(a) => forall i :: 0 <= i < |a| ==> Visible(a[i])
    case DictT(a) => forall i :: 0 <= i < |a| ==> Visible(a[i])
    case TupleT(a) => forall i :: 0 <= i < |a| ==> Visible(a[i])
    case _ => true
  }

  /** On the annotations Python builds, the mapping collects exactly the models the
      registry's walk finds, unless a model hides under an origin it does not map. */
  lemma {:induction false} RefsAreModels(t: TypeHint, p: bool)
    requires WellFormed(t) && Visible(t)
    ensures MapType(t, p).refs == Models(t)
    decreases t, 1
  {
    match t
    case UnionT(args) => UnionRefsAreModels(args, p);
    case ListT(args) =>
      if |args| > 0 {
        ElementRefsAreModels(args, p);
      }
    case SetT(args) =>
      if |args| > 0 {
        ElementRefsAreModels(args, p);
      }
    case DictT(args) =>
      if |args| >= 2 {
        DictRefsAreModels(args, p);
      }
    case TupleT(args) => RefsOfAreModels(args, p);
    case _ =>
  }

  lemma {:induction false} UnionRefsAreModels(args: seq<TypeHint>, p: bool)
    requires WellFormed(UnionT(args)) && Visible(UnionT(args))
    ensures MapType(UnionT(args), p).refs == ModelsSeq(args)
    decreases UnionT(args), 0
  {
    if IsOptional(args) {
      var x := NonNone(args)[0];
      var i :| 0 <= i < |args| && args[i] == x;
      WellFormedSeqMember(args, i);
      RefsAreModels(x, p);
      OptionalModels(args, i);
    } else {
      RefsOfAreModels(args, p);
    }
  }

  /** The element type of a list or set carries all its models. */
  lemma {:induction false} ElementRefsAreModels(args: seq<TypeHint>, p: bool)
    requires |args| == 1 && WellFormedSeq(args) && Visible(args[0])
    ensures MapType(args[0], p).refs == ModelsSeq(args)
    decreases args, 0
  {
    WellFormedSeqMember(args, 0);
    RefsAreModels(args[0], p);
    SoleArgModels(args);
  }

  lemma {:induction false} DictRefsAreModels(args: seq<TypeHint>, p: bool)
    requires |args| == 2 && WellFormedSeq(args) && Visible(args[0]) && Visible(args[1])
    ensures MapType(args[0], p).refs + MapType(args[1], p).refs == ModelsSeq(args)
    decreases args, 0
  {
    WellFormedSeqMember(args, 0);
    WellFormedSeqMember(args, 1);
    RefsAreModels(args[0], p);
    RefsAreModels(args[1], p);
    PairArgModels(args);
  }

  lemma SoleArgModels(args: seq<TypeHint>)
    requires |args| == 1
    ensures ModelsSeq(args) == Models(args[0])
  {
    assert args[1..] == [];
  }

  lemma PairArgModels(args: seq<TypeHint>)
    requires |args| == 2
    ensures ModelsSeq(args) == Models(args[0]) + Models(args[1])
  {
    assert args[1..][1..] == [];
    assert ModelsSeq(args[1..]) == Models(args[1]) + ModelsSeq(args[1..][1..]);
  }

  lemma {:induction false} RefsOfAreModels(ts: seq<TypeHint>, p: bool)
    requires WellFormedSeq(ts) && forall i :: 0 <= i < |ts| ==> Visible(ts[i])
    ensures RefsOf(ts, p) == ModelsSeq(ts)
    decreases ts, 0
  {
    if |ts| > 0 {
      RefsAreModels(ts[0], p);
      RefsOfAreModels(ts[1..], p);
    }
  }

  /** In `Optional[X]` every member but `X` is `None`, which names no model. */
  lemma {:induction false} OptionalModels(args: seq<TypeHint>, i: nat)
    requires IsOptional(args) && i < |args| && args[i] == NonNone(args)[0]
    ensures ModelsSeq(args) == Models(args[i])
  {
    forall j | 0 <= j < |args| && j != i ensures args[j] == NoneT {
      if args[j] != NoneT {
        assert args[j] in NonNone(args);
        assert args[j] == NonNone(args)[0];
        SoleNonNone(args, i, j);
      }
    }
    ModelsOfNoneAndOne(args, i);
  }

  /** A non-`None` member at two positions is kept twice by the filter. */
  lemma {:induction false} SoleNonNone(args: seq<TypeHint>, i: nat, j: nat)
    requires i < |args| && j < |args| && i != j && args[i] == args[j] && args[i] != NoneT
    ensures |NonNone(args)| >= 2
    decreases |args|
  {
    if i > 0 && j > 0 {
      SoleNonNone(args[1..], i - 1, j - 1);
    } else {
      var k := if i == 0 then j else i;
      assert args[1..][k - 1] == args[0];
      assert args[0] in NonNone(args[1..]);
    }
  }

  lemma {:induction false} ModelsOfNoneAndOne(args: seq<TypeHint>, i: nat)
    requires i < |args| && forall j :: 0 <= j < |args| && j != i ==> args[j] == NoneT
    ensures ModelsSeq(args) == Models(args[i])
    decreases |args|
  {
    if i > 0 {
      ModelsOfNoneAndOne(args[1..], i - 1);
    } else if |args| > 1 {
      AllNoneModels(args[1..]);
    }
  }

  lemma {:induction false} AllNoneModels(args: seq<TypeHint>)
    requires forall j :: 0 <= j < |args| ==> args[j] == NoneT
    ensures ModelsSeq(args) == {}
    decreases |args|
  {
    if |args| > 0 {
      AllNoneModels(args[1..]);
    }
  }

  // ---------------------------------------------------------------- what the text means

  /** The TypeScript type each annotation is meant to become. */
  function Denote(t: TypeHint): Ts
    decreases t, 1
  {
    match t
    case NoneT => Name("null")
    case PrimT(k) => Name(PrimTs(k))
    case AnyT => Name("unknown")
    case UnionT(args) =>
      if IsOptional(args) then Union([Denote(NonNone(args)[0]), Name("null")])
      else Union(DenoteAll(args))
    case PipeUnionT(_) => Name("unknown")
    case ListT(args) => Array(if |args| > 0 then Denote(args[0]) else Name("unknown"))
    case SetT(args) => Array(if |args| > 0 then Denote(args[0]) else Name("unknown"))
    case DictT(args) =>
      if |args| >= 2 then Record(IndexKeyTs(Denote(args[0])), Denote(args[1]))
      else Record(Name("string"), Name("unknown"))
    case TupleT(args) => if |args| > 0 then Tuple(DenoteAll(args)) else Array(Name("unknown"))
    case ModelT(n) => Name(n)
    case OtherT(_) => Name("unknown")
  }

  function DenoteAll(ts: seq<TypeHint>): (r: seq<Ts>)
    ensures |r| == |ts|
    decreases ts, 0
  {
    if |ts| == 0 then [] else [Denote(ts[0])] + DenoteAll(ts[1..])
  }

  function IndexKeyTs(k: Ts): Ts {
    if k == Name("string") || k == Name("number") then k else Name("string")
  }

  /** Every model the mapping names is an ASCII identifier. */
  ghost predicate IdentRefs(t: TypeHint) {
    forall n :: n in MapType(t, true).refs ==> IsIdent(n)
  }

  ghost predicate IdentRefsOf(ts: seq<TypeHint>) {
    forall n :: n in RefsOf(ts, true) ==> IsIdent(n)
  }

  lemma KeywordsAreIdents()
    ensures IsIdent("null") && IsIdent("unknown") && IsIdent("string") && IsIdent("number") && IsIdent("boolean")
  {
  }

  /** The generator's text is the canonical rendering of the intended TypeScript type. */
  lemma {:induction false} Denotes(t: TypeHint)
    requires WellFormed(t) && IdentRefs(t)
    ensures WF(Denote(t))
    ensures TsType(t) == Render(PrintType(Denote(t)))
    ensures Denote(t).Union? <==> t.UnionT?
    decreases t, 1
  {
    match t
    case UnionT(args) =>
      if IsOptional(args) {
        OptionalDenotes(args);
      } else {
        MembersDenote(args);
      }
    case ListT(args) => ListDenotes(args);
    case SetT(args) => SetDenotes(args);
    case DictT(args) => DictDenotes(args);
    case TupleT(args) => TupleDenotes(args);
    case _ => LeafDenotes(t);
  }

  lemma LeafDenotes(t: TypeHint)
    requires IdentRefs(t)
    requires t.NoneT? || t.PrimT? || t.AnyT? || t.PipeUnionT? || t.OtherT? || t.ModelT?
    ensures WF(Denote(t)) && TsType(t) == Render(PrintType(Denote(t))) && !Denote(t).Union?
  {
    KeywordsAreIdents();
    assert Denote(t) == Name(TsType(t));
  }

  lemma {:induction false} OptionalDenotes(args: seq<TypeHint>)
    requires WellFormed(UnionT(args)) && IdentRefs(UnionT(args)) && IsOptional(args)
    ensures WF(Denote(UnionT(args))) && Denote(UnionT(args)).Union?
    ensures TsType(UnionT(args)) == Render(PrintType(Denote(UnionT(args))))
    decreases UnionT(args), 0
  {
    var x := NonNone(args)[0];
    var i :| 0 <= i < |args| && args[i] == x;
    WellFormedSeqMember(args, i);
    Denotes(x);
    assert Denote(UnionT(args)) == Union([Denote(x), Name("null")]);
    NullableRendering(Denote(x));
    RenderOperand(Denote(x));
  }

  /** A union of one operand and `null` prints as the operand, ` | `, and `null`. */
  lemma NullableRendering(d: Ts)
    requires WF(d) && !d.Union?
    ensures WF(Union([d, Name("null")]))
    ensures Render(PrintType(Union([d, Name("null")]))) == Render(PrintOperand(d)) + " | null"
  {
    KeywordsAreIdents();
    var ms := [d, Name("null")];
    assert ms[1..] == [Name("null")];
    assert PrintMembers(ms[1..]) == [Ident("null")];
    assert PrintType(Union(ms)) == PrintOperand(d) + [Pipe] + [Ident("null")];
    RenderSeparated(PrintOperand(d), Pipe, [Ident("null")]);
  }

  lemma {:induction false} ListDenotes(args: seq<TypeHint>)
    requires WellFormed(ListT(args)) && IdentRefs(ListT(args))
    ensures WF(Denote(ListT(args))) && !Denote(ListT(args)).Union?
    ensures TsType(ListT(args)) == Render(PrintType(Denote(ListT(args))))
    decreases ListT(args), 0
  {
    if |args| > 0 {
      WellFormedSeqMember(args, 0);
      ArrayDenotes(args[0]);
    } else {
      KeywordsAreIdents();
      RenderArray(Name("unknown"));
    }
  }

  lemma {:induction false} SetDenotes(args: seq<TypeHint>)
    requires WellFormed(SetT(args)) && IdentRefs(SetT(args))
    ensures WF(Denote(SetT(args))) && !Denote(SetT(args)).Union?
    ensures TsType(SetT(args)) == Render(PrintType(Denote(SetT(args))))
    decreases SetT(args), 0
  {
    if |args| > 0 {
      WellFormedSeqMember(args, 0);
      ArrayDenotes(args[0]);
    } else {
      KeywordsAreIdents();
      RenderArray(Name("unknown"));
    }
  }

  lemma {:induction false} ArrayDenotes(x: TypeHint)
    requires WellFormed(x) && IdentRefs(x)
    ensures WF(Array(Denote(x)))
    ensures ArrayOfText(MapType(x, true), x.UnionT?).text == Render(PrintType(Array(Denote(x))))
    decreases x, 2
  {
    Denotes(x);
    RenderArray(Denote(x));
    RenderOperand(Denote(x));
  }

  lemma {:induction false} DictDenotes(args: seq<TypeHint>)
    requires WellFormed(DictT(args)) && IdentRefs(DictT(args))
    ensures WF(Denote(DictT(args))) && !Denote(DictT(args)).Union?
    ensures TsType(DictT(args)) == Render(PrintType(Denote(DictT(args))))
    decreases DictT(args), 0
  {
    if |args| >= 2 {
      WellFormedSeqMember(args, 0);
      WellFormedSeqMember(args, 1);
      RecordDenotes(args);
    } else {
      BareDictDenotes(args);
    }
  }

  lemma BareDictDenotes(args: seq<TypeHint>)
    requires |args| < 2
    ensures WF(Denote(DictT(args))) && !Denote(DictT(args)).Union?
    ensures TsType(DictT(args)) == Render(PrintType(Denote(DictT(args))))
  {
    KeywordsAreIdents();
    RenderRecord(Name("string"), Name("unknown"));
    RenderName("string");
    RenderName("unknown");
    BareDictText();
    assert Denote(DictT(args)) == Record(Name("string"), Name("unknown"));
    assert TsType(DictT(args)) == "Record<string, unknown>";
  }

  lemma RenderName(n: string)
    ensures Render(PrintType(Name(n))) == n
  {
    assert Render([Ident(n)]) == n + Render([]);
  }

  lemma BareDictText()
    ensures "Record<" + "string" + ", " + "unknown" + ">" == "Record<string, unknown>"
  {
  }

  lemma {:induction false} RecordDenotes(args: seq<TypeHint>)
    requires |args| >= 2 && WellFormed(args[0]) && WellFormed(args[1]) && IdentRefs(DictT(args))
    ensures WF(Denote(DictT(args)))
    ensures TsType(DictT(args)) == Render(PrintType(Denote(DictT(args))))
    decreases args, 1
  {
    var a, b := args[0], args[1];
    assert IdentRefs(a) && IdentRefs(b);
    Denotes(a);
    Denotes(b);
    var k := IndexKeyTs(Denote(a));
    KeyRendering(Denote(a), TsType(a));
    RenderRecord(k, Denote(b));
    DictShapes(args);
  }

  /** With two arguments, the text and the intended type are both a `Record`. */
  lemma DictShapes(args: seq<TypeHint>)
    requires |args| >= 2
    ensures TsType(DictT(args)) == "Record<" + IndexKey(TsType(args[0])) + ", " + TsType(args[1]) + ">"
    ensures Denote(DictT(args)) == Record(IndexKeyTs(Denote(args[0])), Denote(args[1]))
  {
  }

  /** The key type the intended `Record` uses renders as the key text the generator picks. */
  lemma KeyRendering(d: Ts, text: string)
    requires WF(d) && text == Render(PrintType(d))
    ensures WF(IndexKeyTs(d))
    ensures Render(PrintType(IndexKeyTs(d))) == IndexKey(text)
  {
    KeywordsAreIdents();
    assert Render(PrintType(Name("string"))) == "string";
    if text == "number" {
      NameOfRendered(d, "number");
    } else if text == "string" {
      NameOfRendered(d, "string");
    }
  }

  lemma {:induction false} MembersDenote(args: seq<TypeHint>)
    requires WellFormed(UnionT(args)) && IdentRefs(UnionT(args)) && !IsOptional(args)
    ensures WF(Denote(UnionT(args))) && Denote(UnionT(args)).Union?
    ensures TsType(UnionT(args)) == Render(PrintType(Denote(UnionT(args))))
    decreases UnionT(args), 0
  {
    JoinedMembers(args);
  }

  lemma {:induction false} JoinedMembers(ts: seq<TypeHint>)
    requires |ts| >= 1 && WellFormedSeq(ts) && IdentRefsOf(ts)
    requires forall i :: 0 <= i < |ts| ==> !ts[i].UnionT?
    ensures forall i :: 0 <= i < |ts| ==> WF(DenoteAll(ts)[i])
    ensures Join(TextsOf(ts, true), " | ") == Render(PrintMembers(DenoteAll(ts)))
    decreases ts, 0
  {
    Denotes(ts[0]);
    var d := DenoteAll(ts);
    MappedTail(ts);
    RenderOperand(d[0]);
    if |ts| >= 2 {
      JoinedMembers(ts[1..]);
      MembersShape(d);
      RenderSeparated(PrintOperand(d[0]), Pipe, PrintMembers(d[1..]));
      WFTail(d);
    }
  }

  /** The first annotation's text and type, and the rest's, split off together. */
  lemma MappedTail(ts: seq<TypeHint>)
    requires |ts| >= 1
    ensures DenoteAll(ts)[0] == Denote(ts[0]) && DenoteAll(ts)[1..] == DenoteAll(ts[1..])
    ensures TextsOf(ts, true)[0] == TsType(ts[0]) && TextsOf(ts, true)[1..] == TextsOf(ts[1..], true)
  {
  }

  lemma MembersShape(d: seq<Ts>)
    requires |d| >= 2
    ensures PrintMembers(d) == PrintOperand(d[0]) + [Pipe] + PrintMembers(d[1..])
  {
  }

  lemma ListShape(d: seq<Ts>)
    requires |d| >= 2
    ensures PrintList(d) == PrintType(d[0]) + [Comma] + PrintList(d[1..])
  {
  }

  lemma WFTail(d: seq<Ts>)
    requires |d| >= 1 && WF(d[0]) && forall i :: 0 <= i < |d[1..]| ==> WF(d[1..][i])
    ensures forall i :: 0 <= i < |d| ==> WF(d[i])
  {
    forall i | 0 <= i < |d| ensures WF(d[i]) {
      if i > 0 { assert d[i] == d[1..][i - 1]; }
    }
  }

  lemma {:induction false} TupleDenotes(args: seq<TypeHint>)
    requires WellFormed(TupleT(args)) && IdentRefs(TupleT(args))
    ensures WF(Denote(TupleT(args))) && !Denote(TupleT(args)).Union?
    ensures TsType(TupleT(args)) == Render(PrintType(Denote(TupleT(args))))
    decreases TupleT(args), 0
  {
    if |args| > 0 {
      JoinedList(args);
      RenderTuple(DenoteAll(args));
    } else {
      KeywordsAreIdents();
      RenderArray(Name("unknown"));
    }
  }

  lemma {:induction false} JoinedList(ts: seq<TypeHint>)
    requires |ts| >= 1 && WellFormedSeq(ts) && IdentRefsOf(ts)
    ensures forall i :: 0 <= i < |ts| ==> WF(DenoteAll(ts)[i])
    ensures Join(TextsOf(ts, true), ", ") == Render(PrintList(DenoteAll(ts)))
    decreases ts, 0
  {
    var d := DenoteAll(ts);
    var texts := TextsOf(ts, true);
    IdentRefsSplit(ts);
    Denotes(ts[0]);
    MappedTail(ts);
    if |ts| >= 2 {
      JoinedList(ts[1..]);
      ListShape(d);
      calc {
        Join(texts, ", ");
        texts[0] + ", " + Join(texts[1..], ", ");
        Render(PrintType(d[0])) + Text(Comma) + Render(PrintList(d[1..]));
        { RenderSeparated(PrintType(d[0]), Comma, PrintList(d[1..])); }
        Render(PrintList(d));
      }
      WFTail(d);
    }
  }

  lemma IdentRefsSplit(ts: seq<TypeHint>)
    requires |ts| >= 1 && IdentRefsOf(ts)
    ensures IdentRefs(ts[0]) && IdentRefsOf(ts[1..])
  {
  }

  // ---------------------------------------------------------------- properties of the mapping

  /** A TypeScript compiler reads the generated text as exactly the intended type. */
  lemma TsTypeReadsAsIntended(t: TypeHint)
    requires WellFormed(t) && IdentRefs(t)
    ensures ReadTs(TsType(t)) == Some(Denote(t))
  {
    Denotes(t);
    ReadRendered(Denote(t));
  }

  /** As written, a list of an optional is misread: `list[Optional[str]]` becomes
      `string | null[]`, which TypeScript reads as a string or an array of nulls. */
  lemma AsWrittenMisreadsOptionalElements()
    ensures var t := ListT([UnionT([PrimT(Str), NoneT])]);
      && TsTypeAsWritten(t) == "string | null[]"
      && ReadTs(TsTypeAsWritten(t)) == Some(Union([Name("string"), Array(Name("null"))]))
      && Denote(t) == Array(Union([Name("string"), Name("null")]))
      && ReadTs(TsTypeAsWritten(t)) != Some(Denote(t))
      && TsType(t) == "(string | null)[]"
  {
    OptionalStrTexts();
    var misread := Union([Name("string"), Array(Name("null"))]);
    MisreadRendering();
    ReadRendered(misread);
  }

  lemma OptionalStrTexts()
    ensures var t := ListT([UnionT([PrimT(Str), NoneT])]);
      && TsTypeAsWritten(t) == "string | null[]"
      && TsType(t) == "(string | null)[]"
      && Denote(t) == Array(Union([Name("string"), Name("null")]))
  {
    var opt := UnionT([PrimT(Str), NoneT]);
    OptionalStrText(false);
    OptionalStrText(true);
    SoleElementText(opt, false);
    SoleElementText(opt, true);
    OptionalStrLiterals();
    OptionalStrDenote();
  }

  lemma SoleElementText(x: TypeHint, p: bool)
    ensures MapType(ListT([x]), p) == ArrayOfText(MapType(x, p), p && x.UnionT?)
  {
    assert [x][0] == x;
  }

  lemma OptionalStrLiterals()
    ensures "string | null" + "[]" == "string | null[]"
    ensures "(" + "string | null" + ")" + "[]" == "(string | null)[]"
  {
  }

  lemma OptionalStrDenote()
    ensures Denote(ListT([UnionT([PrimT(Str), NoneT])])) == Array(Union([Name("string"), Name("null")]))
  {
    var opt := UnionT([PrimT(Str), NoneT]);
    OptionalStrArgs();
    assert [opt][0] == opt;
    assert Denote(opt) == Union([Name("string"), Name("null")]);
  }

  lemma OptionalStrText(p: bool)
    ensures MapType(UnionT([PrimT(Str), NoneT]), p).text == "string | null"
  {
    OptionalStrArgs();
  }

  lemma OptionalStrArgs()
    ensures NonNone([PrimT(Str), NoneT]) == [PrimT(Str)] && IsOptional([PrimT(Str), NoneT])
  {
    var args := [PrimT(Str), NoneT];
    assert args[1..] == [NoneT];
    assert NonNone([NoneT]) == [] + NonNone([]);
  }

  lemma MisreadRendering()
    ensures WF(Union([Name("string"), Array(Name("null"))]))
    ensures Render(PrintType(Union([Name("string"), Array(Name("null"))]))) == "string | null[]"
  {
    KeywordsAreIdents();
    MisreadTokens();
    MisreadText();
  }

  lemma MisreadTokens()
    ensures PrintType(Union([Name("string"), Array(Name("null"))])) == [Ident("string"), Pipe, Ident("null"), LBrack, RBrack]
  {
    assert [Name("string"), Array(Name("null"))][1..] == [Array(Name("null"))];
  }

  lemma MisreadText()
    ensures Render([Ident("string"), Pipe, Ident("null"), LBrack, RBrack]) == "string | null[]"
  {
    var toks := [Ident("string"), Pipe, Ident("null"), LBrack, RBrack];
    assert Render(toks[4..]) == "]";
    assert toks[3..][1..] == toks[4..];
    assert Render(toks[3..]) == "[" + Render(toks[4..]);
    assert toks[2..][1..] == toks[3..];
    assert Render(toks[2..]) == "null" + Render(toks[3..]);
    assert toks[1..][1..] == toks[2..];
    assert Render(toks[1..]) == " | " + Render(toks[2..]);
  }

  /** The `?` marker and the type agree: a nullable Union's type admits `null`. */
  lemma NullableUnionAdmitsNull(t: TypeHint)
    requires IsNullableUnion(t)
    ensures Denote(t).Union? && Name("null") in Denote(t).members
  {
    if !IsOptional(t.args) {
      var i :| 0 <= i < |t.args| && t.args[i] == NoneT;
      DenoteAllAt(t.args, i);
    }
  }

  lemma {:induction false} DenoteAllAt(ts: seq<TypeHint>, i: nat)
    requires i < |ts|
    ensures DenoteAll(ts)[i] == Denote(ts[i])
    decreases |ts|
  {
    if i > 0 {
      DenoteAllAt(ts[1..], i - 1);
    }
  }

  /** `Optional[X]` maps to `X | null` wherever `None` stands in the Union. */
  lemma OptionalEitherOrder(x: TypeHint, p: bool)
    requires x != NoneT
    ensures MapType(UnionT([x, NoneT]), p).text == MapType(x, p).text + " | null"
    ensures MapType(UnionT([NoneT, x]), p).text == MapType(x, p).text + " | null"
  {
    assert [x, NoneT][1..] == [NoneT];
    assert [NoneT, x][1..] == [x];
    assert NonNone([NoneT]) == [] + NonNone([]);
    assert NonNone([x]) == [x] + NonNone([]);
    assert NonNone([x, NoneT]) == [x];
    assert NonNone([NoneT, x]) == [x];
  }

  /** A set becomes an array just as a list does, and every bare container has an
      `unknown` element type. */
  lemma ContainersAsArrays(args: seq<TypeHint>, p: bool)
    ensures MapType(SetT(args), p) == MapType(ListT(args), p)
    ensures args == [] ==> MapType(ListT(args), p).text == "unknown[]" && MapType(TupleT(args), p).text == "unknown[]"
    ensures args == [] ==> MapType(DictT(args), p).text == "Record<string, unknown>"
  {
  }

  /** A `Record` key is always an index type: the key's own type when it is `string`
      or `number`, `string` otherwise. */
  lemma DictKeyIsIndexType(args: seq<TypeHint>, p: bool)
    requires |args| >= 2
    ensures var key := MapType(args[0], p).text;
      var k := if key == "number" then "number" else "string";
      MapType(DictT(args), p).text == "Record<" + k + ", " + MapType(args[1], p).text + ">"
  {
  }

  /** Every annotation maps to some text, never to the empty string. */
  lemma TextNonEmpty(t: TypeHint, p: bool)
    requires WellFormed(t)
    requires forall n :: n in MapType(t, p).refs ==> n != ""
    ensures |MapType(t, p).text| > 0
  {
    match t
    case UnionT(args) =>
      if !IsOptional(args) {
        var parts := TextsOf(args, p);
        assert Join(parts, " | ") == parts[0] + " | " + Join(parts[1..], " | ");
      }
    case ModelT(n) => assert n in MapType(t, p).refs;
    case _ =>
  }
}
