/** The Python type annotations the bridge inspects, as an explicit tree in place of
    runtime reflection (`get_origin`, `get_args`, `issubclass(BaseModel)`), and the
    Pydantic models they name. */
module TypeHints {
  import opened Common

  /** The builtin scalar classes `PYTHON_TO_TS_TYPES` lists. */
  datatype Prim = Str | Int | Float | Bool | Bytes

  /** One annotation. Container nodes carry `get_args(hint)` in order; an empty
      argument list is the bare typing alias (`typing.List`, `typing.Dict`). The bare
      builtin classes (`list`, `dict`) have no origin and are `OtherT([])`. */
  datatype TypeHint =
    | NoneT                          // type(None)
    | PrimT(kind: Prim)              // str, int, float, bool, bytes
    | AnyT                           // typing.Any
    | UnionT(args: seq<TypeHint>)    // typing.Union[...], typing.Optional[...]
    | PipeUnionT(args: seq<TypeHint>) // X | Y: origin types.UnionType, no __origin__ attribute
    | ListT(args: seq<TypeHint>)     // origin list
    | DictT(args: seq<TypeHint>)     // origin dict
    | TupleT(args: seq<TypeHint>)    // origin tuple
    | SetT(args: seq<TypeHint>)      // origin set
    | ModelT(name: string)           // a BaseModel subclass, known by its __name__
    | OtherT(args: seq<TypeHint>)    // any other class, or a generic of any other origin

  /** `typing.get_args(hint)`. */
  function Args(t: TypeHint): (r: seq<TypeHint>)
    ensures t.NoneT? || t.PrimT? || t.AnyT? || t.ModelT? ==> r == []
  {
    match t
    case UnionT(a) => a
    case PipeUnionT(a) => a
    case ListT(a) => a
    case DictT(a) => a
    case TupleT(a) => a
    case SetT(a) => a
    case OtherT(a) => a
    case _ => []
  }

  /** The models an annotation names through `__origin__`/`__args__`: under every
      generic alias, but not inside an `X | Y` union, which has no `__origin__`. */
  function Models(t: TypeHint): set<string>
    decreases t
  {
    match t
    case ModelT(n) => {n}
    case NoneT => {}
    case PrimT(_) => {}
    case AnyT => {}
    case PipeUnionT(_) => {}
    case _ => ModelsSeq(Args(t))
  }

  function ModelsSeq(ts: seq<TypeHint>): set<string>
    decreases ts
  {
    if |ts| == 0 then {} else Models(ts[0]) + ModelsSeq(ts[1..])
  }

  lemma {:induction false} ModelsSeqMember(ts: seq<TypeHint>, i: nat)
    requires i < |ts|
    ensures Models(ts[i]) <= ModelsSeq(ts)
    decreases ts
  {
    if i > 0 {
      ModelsSeqMember(ts[1..], i - 1);
    }
  }

  /** Node count of an annotation, a termination measure for the walks over it. */
  function Size(t: TypeHint): nat
    decreases t
  {
    match t
    case UnionT(a) => 1 + SizeSeq(a)
    case PipeUnionT(a) => 1 + SizeSeq(a)
    case ListT(a) => 1 + SizeSeq(a)
    case DictT(a) => 1 + SizeSeq(a)
    case TupleT(a) => 1 + SizeSeq(a)
    case SetT(a) => 1 + SizeSeq(a)
    case OtherT(a) => 1 + SizeSeq(a)
    case _ => 1
  }

  function SizeSeq(ts: seq<TypeHint>): nat
    decreases ts
  {
    if |ts| == 0 then 0 else Size(ts[0]) + SizeSeq(ts[1..])
  }

  /** A generic alias is larger than its arguments, and names what they name. */
  lemma ArgsStep(t: TypeHint)
    ensures SizeSeq(Args(t)) < Size(t)
    ensures !t.ModelT? && !t.PipeUnionT? ==> Models(t) == ModelsSeq(Args(t))
  {
  }

  /** A Union annotation that admits `None`: the test the interface emitter uses for `?`. */
  predicate IsNullableUnion(t: TypeHint) {
    t.UnionT? && NoneT in t.args
  }

  /** The shapes Python's `typing` module can actually build: a Union has at least
      two members and is flat (nested Unions are merged), `list`/`set` take at most
      one argument and `dict` none or two. */
  predicate WellFormed(t: TypeHint)
    decreases t
  {
    match t
    case UnionT(a) => |a| >= 2 && (forall i :: 0 <= i < |a| ==> !a[i].UnionT? && !a[i].PipeUnionT?) && WellFormedSeq(a)
    case PipeUnionT(a) => |a| >= 2 && WellFormedSeq(a)
    case ListT(a) => |a| <= 1 && WellFormedSeq(a)
    case SetT(a) => |a| <= 1 && WellFormedSeq(a)
    case DictT(a) => (|a| == 0 || |a| == 2) && WellFormedSeq(a)
    case TupleT(a) => WellFormedSeq(a)
    case OtherT(a) => WellFormedSeq(a)
    case _ => true
  }

  predicate WellFormedSeq(ts: seq<TypeHint>)
    decreases ts
  {
    |ts| == 0 || (WellFormed(ts[0]) && WellFormedSeq(ts[1..]))
  }

  lemma {:induction false} WellFormedSeqMember(ts: seq<TypeHint>, i: nat)
    requires i < |ts| && WellFormedSeq(ts)
    ensures WellFormed(ts[i])
    decreases ts
  {
    if i > 0 {
      WellFormedSeqMember(ts[1..], i - 1);
    }
  }

  /** One entry of a Pydantic model's `model_fields`. */
  datatype Field = Field(name: string, annotation: TypeHint, required: bool, description: Option<string>)

  /** A Pydantic model class: its `__name__`, `__doc__` and fields in declaration order. */
  datatype ModelDef = ModelDef(name: string, doc: Option<string>, fields: seq<Field>)

  /** The models named by a model's field annotations. */
  function FieldModels(fs: seq<Field>): set<string>
    decreases |fs|
  {
    if |fs| == 0 then {} else Models(fs[0].annotation) + FieldModels(fs[1..])
  }

  lemma {:induction false} FieldModelsMember(fs: seq<Field>, i: nat)
    requires i < |fs|
    ensures Models(fs[i].annotation) <= FieldModels(fs)
    decreases |fs|
  {
    if i > 0 {
      FieldModelsMember(fs[1..], i - 1);
    }
  }

  /** The model classes a program defines, keyed by `__name__`, with every field
      annotation naming only classes that exist: Python cannot annotate with an
      undefined class. */
  ghost predicate ClassesOk(classes: map<string, ModelDef>) {
    forall n :: n in classes ==> classes[n].name == n && FieldModels(classes[n].fields) <= classes.Keys
  }
}
