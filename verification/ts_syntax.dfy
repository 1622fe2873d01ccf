/** The TypeScript side of the type mapping: a small type-expression syntax tree,
    the canonical token sequence for it, the lexer and the precedence-aware parser a
    TypeScript compiler applies to the generated text, and the proof that reading the
    canonical text gives the tree back. In TypeScript's grammar the array suffix `[]`
    binds tighter than `|`, so a union element type must be parenthesised. */
module TsSyntax {
  import opened Common

  /** A TypeScript type expression. Keywords (`string`, `null`, `unknown`) and
      interface names are all `Name`s. */
  datatype Ts =
    | Name(n: string)
    | Union(members: seq<Ts>)
    | Array(elem: Ts)
    | Record(key: Ts, value: Ts)
    | Tuple(elems: seq<Ts>)

  datatype Token = Ident(text: string) | Pipe | LBrack | RBrack | LAngle | RAngle | Comma | LParen | RParen | Stray(c: char)

  predicate IsIdentChar(c: char) {
    ('a' <= c <= 'z') || ('A' <= c <= 'Z') || ('0' <= c <= '9') || c == '_' || c == '$'
  }

  predicate IsIdent(s: string) {
    |s| > 0 && forall i :: 0 <= i < |s| ==> IsIdentChar(s[i])
  }

  /** A type the printer can express unambiguously: names are identifiers, a union
      has at least two members and a tuple at least one element. */
  ghost predicate WF(t: Ts)
    decreases t
  {
    match t
    case Name(n) => IsIdent(n)
    case Union(ms) => |ms| >= 2 && forall i :: 0 <= i < |ms| ==> WF(ms[i])
    case Array(e) => WF(e)
    case Record(k, v) => WF(k) && WF(v)
    case Tuple(es) => |es| >= 1 && forall i :: 0 <= i < |es| ==> WF(es[i])
  }

  function TsSize(t: Ts): nat
    decreases t
  {
    match t
    case Name(_) => 1
    case Union(ms) => 1 + TsSizeSeq(ms)
    case Array(e) => 1 + TsSize(e)
    case Record(k, v) => 1 + TsSize(k) + TsSize(v)
    case Tuple(es) => 1 + TsSizeSeq(es)
  }

  function TsSizeSeq(ts: seq<Ts>): nat
    decreases ts
  {
    if |ts| == 0 then 0 else TsSize(ts[0]) + TsSizeSeq(ts[1..])
  }

  // ---------------------------------------------------------------- printing

  /** A full type: a union's members are written bare, separated by `|`. */
  function PrintType(t: Ts): seq<Token>
    decreases t, 1
  {
    if t.Union? then PrintMembers(t.members) else PrintOperand(t)
  }

  /** A type in operand position (a union member or an array element): a union is parenthesised. */
  function PrintOperand(t: Ts): seq<Token>
    decreases t, 0
  {
    match t
    case Name(n) => [Ident(n)]
    case Union(ms) => [LParen] + PrintMembers(ms) + [RParen]
    case Array(e) => PrintOperand(e) + [LBrack, RBrack]
    case Record(k, v) => [Ident("Record"), LAngle] + PrintType(k) + [Comma] + PrintType(v) + [RAngle]
    case Tuple(es) => [LBrack] + PrintList(es) + [RBrack]
  }

  function PrintMembers(ms: seq<Ts>): seq<Token>
    decreases ms, 2
  {
    if |ms| == 0 then []
    else if |ms| == 1 then PrintOperand(ms[0])
    else PrintOperand(ms[0]) + [Pipe] + PrintMembers(ms[1..])
  }

  function PrintList(es: seq<Ts>): seq<Token>
    decreases es, 2
  {
    if |es| == 0 then []
    else if |es| == 1 then PrintType(es[0])
    else PrintType(es[0]) + [Comma] + PrintList(es[1..])
  }

  /** The characters of a token, with the spacing the generator writes. */
  function Text(tok: Token): string {
    match tok
    case Ident(s) => s
    case Pipe => " | "
    case LBrack => "["
    case RBrack => "]"
    case LAngle => "<"
    case RAngle => ">"
    case Comma => ", "
    case LParen => "("
    case RParen => ")"
    case Stray(c) => [c]
  }

  function Render(toks: seq<Token>): string
    decreases |toks|
  {
    if |toks| == 0 then "" else Text(toks[0]) + Render(toks[1..])
  }

  // ---------------------------------------------------------------- lexing

  function Punct(c: char): Token {
    if c == '|' then Pipe
    else if c == '[' then LBrack
    else if c == ']' then RBrack
    else if c == '<' then LAngle
    else if c == '>' then RAngle
    else if c == ',' then Comma
    else if c == '(' then LParen
    else if c == ')' then RParen
    else Stray(c)
  }

  /** Length of the identifier run at the start of `s`. */
  function IdentLen(s: string): (k: nat)
    ensures k <= |s|
    ensures forall i :: 0 <= i < k ==> IsIdentChar(s[i])
    ensures k < |s| ==> !IsIdentChar(s[k])
    decreases |s|
  {
    if |s| > 0 && IsIdentChar(s[0]) then 1 + IdentLen(s[1..]) else 0
  }

  /** Tokenises a type expression: spaces separate, identifiers are maximal runs. */
  function Lex(s: string): seq<Token>
    decreases |s|
  {
    if |s| == 0 then []
    else if s[0] == ' ' then Lex(s[1..])
    else if IsIdentChar(s[0]) then
      var k := IdentLen(s);
      [Ident(s[..k])] + Lex(s[k..])
    else [Punct(s[0])] + Lex(s[1..])
  }

  // ---------------------------------------------------------------- parsing

  /** `Members := Operand ("|" Operand)*` */
  function ParseMembers(ts: seq<Token>): (r: Option<(seq<Ts>, seq<Token>)>)
    ensures r.Some? ==> |r.value.0| >= 1 && |r.value.1| < |ts|
    decreases |ts|, 3
  {
    match ParseOperand(ts)
    case None => None
    case Some((m, rest)) =>
      if |rest| > 0 && rest[0] == Pipe then
        match ParseMembers(rest[1..])
        case None => None
        case Some((more, rest2)) => Some(([m] + more, rest2))
      else Some(([m], rest))
  }

  /** `Type := Members`, a single member standing for itself. */
  function ParseType(ts: seq<Token>): (r: Option<(Ts, seq<Token>)>)
    ensures r.Some? ==> |r.value.1| < |ts|
    decreases |ts|, 4
  {
    match ParseMembers(ts)
    case None => None
    case Some((ms, rest)) => Some((if |ms| == 1 then ms[0] else Union(ms), rest))
  }

  /** `Operand := Atom ("[" "]")*` */
  function ParseOperand(ts: seq<Token>): (r: Option<(Ts, seq<Token>)>)
    ensures r.Some? ==> |r.value.1| < |ts|
    decreases |ts|, 2
  {
    match ParseAtom(ts)
    case None => None
    case Some((a, rest)) => Some(ParsePostfix(a, rest))
  }

  function ParsePostfix(a: Ts, ts: seq<Token>): (r: (Ts, seq<Token>))
    ensures |r.1| <= |ts|
    decreases |ts|
  {
    if |ts| >= 2 && ts[0] == LBrack && ts[1] == RBrack then ParsePostfix(Array(a), ts[2..]) else (a, ts)
  }

  /** `Atom := Name | "Record" "<" Type "," Type ">" | "(" Type ")" | "[" List "]"` */
  function ParseAtom(ts: seq<Token>): (r: Option<(Ts, seq<Token>)>)
    ensures r.Some? ==> |r.value.1| < |ts|
    decreases |ts|, 1
  {
    if |ts| == 0 then None
    else if ts[0].Ident? then
      if ts[0].text == "Record" && |ts| > 1 && ts[1] == LAngle then ParseRecord(ts)
      else Some((Name(ts[0].text), ts[1..]))
    else if ts[0] == LParen then
      (match ParseType(ts[1..])
       case None => None
       case Some((t, r1)) => if |r1| > 0 && r1[0] == RParen then Some((t, r1[1..])) else None)
    else if ts[0] == LBrack then
      (match ParseList(ts[1..])
       case None => None
       case Some((es, r1)) => if |r1| > 0 && r1[0] == RBrack then Some((Tuple(es), r1[1..])) else None)
    else None
  }

  /** `"Record" "<" Type "," Type ">"` */
  function ParseRecord(ts: seq<Token>): (r: Option<(Ts, seq<Token>)>)
    requires |ts| >= 2
    ensures r.Some? ==> |r.value.1| < |ts|
    decreases |ts|, 0
  {
    match ParseType(ts[2..])
    case None => None
    case Some((k, r1)) =>
      if |r1| == 0 || r1[0] != Comma then None
      else
        (match ParseType(r1[1..])
         case None => None
         case Some((v, r2)) => if |r2| > 0 && r2[0] == RAngle then Some((Record(k, v), r2[1..])) else None)
  }

  /** `List := Type ("," Type)*` */
  function ParseList(ts: seq<Token>): (r: Option<(seq<Ts>, seq<Token>)>)
    ensures r.Some? ==> |r.value.1| < |ts|
    decreases |ts|, 5
  {
    match ParseType(ts)
    case None => None
    case Some((e, rest)) =>
      if |rest| > 0 && rest[0] == Comma then
        match ParseList(rest[1..])
        case None => None
        case Some((more, rest2)) => Some(([e] + more, rest2))
      else Some(([e], rest))
  }

  /** What a TypeScript compiler reads from a type annotation's text. */
  function ReadTs(s: string): Option<Ts> {
    match ParseType(Lex(s))
    case Some((t, rest)) => if rest == [] then Some(t) else None
    case None => None
  }

  // ---------------------------------------------------------------- parse after print

  ghost predicate FollowsType(rest: seq<Token>) {
    |rest| == 0 || rest[0] == Comma || rest[0] == RAngle || rest[0] == RBrack || rest[0] == RParen
  }

  ghost predicate FollowsOperand(rest: seq<Token>) {
    FollowsType(rest) || rest[0] == Pipe
  }

  function Brackets(k: nat): seq<Token> {
    if k == 0 then [] else [LBrack, RBrack] + Brackets(k - 1)
  }

  function ArrayOf(a: Ts, k: nat): Ts
    decreases k
  {
    if k == 0 then a else ArrayOf(Array(a), k - 1)
  }

  lemma {:induction false} PostfixOf(a: Ts, k: nat, rest: seq<Token>)
    requires FollowsOperand(rest)
    ensures ParsePostfix(a, Brackets(k) + rest) == (ArrayOf(a, k), rest)
    decreases k
  {
    if k == 0 {
      assert Brackets(k) + rest == rest;
    } else {
      var ts := Brackets(k) + rest;
      assert ts == [LBrack, RBrack] + (Brackets(k - 1) + rest);
      assert ts[2..] == Brackets(k - 1) + rest;
      PostfixOf(Array(a), k - 1, rest);
    }
  }

  // One-step unfoldings of the parser, so each round-trip case reasons about one rule.

  lemma OperandStep(ts: seq<Token>, a: Ts, rest: seq<Token>)
    requires ParseAtom(ts) == Some((a, rest))
    ensures ParseOperand(ts) == Some(ParsePostfix(a, rest))
  {
  }

  lemma MembersStep(ts: seq<Token>, m: Ts, rest: seq<Token>, more: seq<Ts>, rest2: seq<Token>)
    requires ParseOperand(ts) == Some((m, rest))
    requires |rest| > 0 && rest[0] == Pipe && ParseMembers(rest[1..]) == Some((more, rest2))
    ensures ParseMembers(ts) == Some(([m] + more, rest2))
  {
  }

  lemma MembersLast(ts: seq<Token>, m: Ts, rest: seq<Token>)
    requires ParseOperand(ts) == Some((m, rest)) && FollowsType(rest)
    ensures ParseMembers(ts) == Some(([m], rest))
  {
  }

  lemma ListStep(ts: seq<Token>, e: Ts, rest: seq<Token>, more: seq<Ts>, rest2: seq<Token>)
    requires ParseType(ts) == Some((e, rest))
    requires |rest| > 0 && rest[0] == Comma && ParseList(rest[1..]) == Some((more, rest2))
    ensures ParseList(ts) == Some(([e] + more, rest2))
  {
  }

  lemma ListLast(ts: seq<Token>, e: Ts, rest: seq<Token>)
    requires ParseType(ts) == Some((e, rest)) && (|rest| == 0 || rest[0] != Comma)
    ensures ParseList(ts) == Some(([e], rest))
  {
  }

  lemma TypeStep(ts: seq<Token>, ms: seq<Ts>, rest: seq<Token>)
    requires ParseMembers(ts) == Some((ms, rest)) && |ms| >= 1
    ensures ParseType(ts) == Some((if |ms| == 1 then ms[0] else Union(ms), rest))
  {
  }

  lemma {:induction false} OperandOf(t: Ts, k: nat, rest: seq<Token>)
    requires WF(t) && FollowsOperand(rest)
    ensures ParseOperand(PrintOperand(t) + Brackets(k) + rest) == Some((ArrayOf(t, k), rest))
    decreases TsSize(t), 2
  {
    if t.Array? {
      ArrayTokens(t.elem, k, rest);
      OperandOf(t.elem, k + 1, rest);
    } else {
      var s := Brackets(k) + rest;
      NoAngleAfter(k, rest);
      AtomOf(t, s);
      Reassociate3(PrintOperand(t), Brackets(k), rest);
      PostfixOf(t, k, rest);
      OperandStep(PrintOperand(t) + s, t, s);
    }
  }

  lemma ArrayTokens(e: Ts, k: nat, rest: seq<Token>)
    ensures PrintOperand(Array(e)) + Brackets(k) + rest == PrintOperand(e) + Brackets(k + 1) + rest
  {
  }

  lemma NoAngleAfter(k: nat, rest: seq<Token>)
    requires FollowsOperand(rest)
    ensures |Brackets(k) + rest| == 0 || (Brackets(k) + rest)[0] != LAngle
  {
  }

  lemma Reassociate3(a: seq<Token>, b: seq<Token>, c: seq<Token>)
    ensures a + b + c == a + (b + c)
  {
  }

  lemma {:induction false} AtomOf(t: Ts, s: seq<Token>)
    requires WF(t) && !t.Array?
    requires |s| == 0 || s[0] != LAngle
    ensures ParseAtom(PrintOperand(t) + s) == Some((t, s))
    decreases TsSize(t), 1
  {
    match t
    case Name(n) => AtomName(n, s);
    case Union(ms) => UnionAtomOf(ms, s);
    case Record(k, v) => RecordAtomOf(k, v, s);
    case Tuple(es) => TupleAtomOf(es, s);
  }

  lemma {:induction false} UnionAtomOf(ms: seq<Ts>, s: seq<Token>)
    requires WF(Union(ms))
    ensures ParseAtom(PrintOperand(Union(ms)) + s) == Some((Union(ms), s))
    decreases TsSize(Union(ms)), 0
  {
    var inner := PrintMembers(ms) + ([RParen] + s);
    MembersOf(ms, [RParen] + s);
    TypeStep(inner, ms, [RParen] + s);
    AtomParen(inner, Union(ms), s);
    WrappedTokens(LParen, PrintMembers(ms), RParen, s);
  }

  lemma WrappedTokens(l: Token, a: seq<Token>, r: Token, s: seq<Token>)
    ensures [l] + a + [r] + s == [l] + (a + ([r] + s))
  {
  }

  lemma {:induction false} RecordAtomOf(k: Ts, v: Ts, s: seq<Token>)
    requires WF(k) && WF(v)
    ensures ParseAtom(PrintOperand(Record(k, v)) + s) == Some((Record(k, v), s))
    decreases TsSize(Record(k, v)), 0
  {
    var tail := [RAngle] + s;
    var second := PrintType(v) + tail;
    var first := PrintType(k) + ([Comma] + second);
    TypeOf(k, [Comma] + second);
    TypeOf(v, tail);
    AtomRecord(first, k, v, second, s);
    RecordTokens(k, v, s);
  }

  lemma RecordTokens(k: Ts, v: Ts, s: seq<Token>)
    ensures PrintOperand(Record(k, v)) + s
      == [Ident("Record"), LAngle] + (PrintType(k) + ([Comma] + (PrintType(v) + ([RAngle] + s))))
  {
  }

  lemma {:induction false} TupleAtomOf(es: seq<Ts>, s: seq<Token>)
    requires WF(Tuple(es))
    ensures ParseAtom(PrintOperand(Tuple(es)) + s) == Some((Tuple(es), s))
    decreases TsSize(Tuple(es)), 0
  {
    var inner := PrintList(es) + ([RBrack] + s);
    ListOf(es, [RBrack] + s);
    AtomTuple(inner, es, s);
    WrappedTokens(LBrack, PrintList(es), RBrack, s);
  }

  lemma AtomName(n: string, s: seq<Token>)
    requires |s| == 0 || s[0] != LAngle
    ensures ParseAtom([Ident(n)] + s) == Some((Name(n), s))
  {
    assert ([Ident(n)] + s)[1..] == s;
  }

  lemma AtomParen(inner: seq<Token>, t: Ts, s: seq<Token>)
    requires ParseType(inner) == Some((t, [RParen] + s))
    ensures ParseAtom([LParen] + inner) == Some((t, s))
  {
    assert ([LParen] + inner)[1..] == inner;
    assert ([RParen] + s)[1..] == s;
  }

  lemma AtomTuple(inner: seq<Token>, es: seq<Ts>, s: seq<Token>)
    requires ParseList(inner) == Some((es, [RBrack] + s))
    ensures ParseAtom([LBrack] + inner) == Some((Tuple(es), s))
  {
    assert ([LBrack] + inner)[1..] == inner;
    assert ([RBrack] + s)[1..] == s;
  }

  lemma AtomRecord(first: seq<Token>, k: Ts, v: Ts, second: seq<Token>, s: seq<Token>)
    requires ParseType(first) == Some((k, [Comma] + second))
    requires ParseType(second) == Some((v, [RAngle] + s))
    ensures ParseAtom([Ident("Record"), LAngle] + first) == Some((Record(k, v), s))
  {
    var ts := [Ident("Record"), LAngle] + first;
    assert ts[2..] == first;
    assert ([Comma] + second)[1..] == second;
    assert ([RAngle] + s)[1..] == s;
    assert ParseRecord(ts) == Some((Record(k, v), s));
  }

  lemma {:induction false} TypeOf(t: Ts, rest: seq<Token>)
    requires WF(t) && FollowsType(rest)
    ensures ParseType(PrintType(t) + rest) == Some((t, rest))
    decreases TsSize(t), 3
  {
    if t.Union? {
      MembersOf(t.members, rest);
      TypeStep(PrintMembers(t.members) + rest, t.members, rest);
    } else {
      OperandOf(t, 0, rest);
      NoBrackets(PrintOperand(t), rest);
      MembersLast(PrintOperand(t) + rest, t, rest);
      TypeStep(PrintOperand(t) + rest, [t], rest);
    }
  }

  lemma NoBrackets(a: seq<Token>, rest: seq<Token>)
    ensures a + Brackets(0) + rest == a + rest
  {
  }

  lemma {:induction false} MembersOf(ms: seq<Ts>, rest: seq<Token>)
    requires |ms| >= 1 && (forall i :: 0 <= i < |ms| ==> WF(ms[i])) && FollowsType(rest)
    ensures ParseMembers(PrintMembers(ms) + rest) == Some((ms, rest))
    decreases TsSizeSeq(ms), 4
  {
    if |ms| == 1 {
      OperandOf(ms[0], 0, rest);
      LastMemberTokens(ms, rest);
      MembersLast(PrintMembers(ms) + rest, ms[0], rest);
      assert [ms[0]] == ms;
    } else {
      var tail := PrintMembers(ms[1..]) + rest;
      var ts := PrintMembers(ms) + rest;
      MemberTokens(ms, rest);
      OperandOf(ms[0], 0, [Pipe] + tail);
      assert ([Pipe] + tail)[1..] == tail;
      MembersOf(ms[1..], rest);
      MembersStep(ts, ms[0], [Pipe] + tail, ms[1..], rest);
      assert [ms[0]] + ms[1..] == ms;
    }
  }

  lemma LastMemberTokens(ms: seq<Ts>, rest: seq<Token>)
    requires |ms| == 1
    ensures PrintOperand(ms[0]) + Brackets(0) + rest == PrintMembers(ms) + rest
  {
  }

  lemma MemberTokens(ms: seq<Ts>, rest: seq<Token>)
    requires |ms| >= 2
    ensures PrintMembers(ms) + rest == PrintOperand(ms[0]) + Brackets(0) + ([Pipe] + (PrintMembers(ms[1..]) + rest))
  {
    assert PrintMembers(ms) == PrintOperand(ms[0]) + [Pipe] + PrintMembers(ms[1..]);
    Regroup(PrintOperand(ms[0]), Pipe, PrintMembers(ms[1..]), rest);
    NoBrackets(PrintOperand(ms[0]), [Pipe] + (PrintMembers(ms[1..]) + rest));
  }

  lemma {:induction false} ListOf(es: seq<Ts>, rest: seq<Token>)
    requires |es| >= 1 && (forall i :: 0 <= i < |es| ==> WF(es[i]))
    requires |rest| > 0 && rest[0] == RBrack
    ensures ParseList(PrintList(es) + rest) == Some((es, rest))
    decreases TsSizeSeq(es), 4
  {
    if |es| == 1 {
      TypeOf(es[0], rest);
      assert PrintList(es) == PrintType(es[0]);
      ListLast(PrintList(es) + rest, es[0], rest);
      assert [es[0]] == es;
    } else {
      var tail := PrintList(es[1..]) + rest;
      var ts := PrintList(es) + rest;
      ElementTokens(es, rest);
      TypeOf(es[0], [Comma] + tail);
      assert ([Comma] + tail)[1..] == tail;
      ListOf(es[1..], rest);
      ListStep(ts, es[0], [Comma] + tail, es[1..], rest);
      assert [es[0]] + es[1..] == es;
    }
  }

  lemma ElementTokens(es: seq<Ts>, rest: seq<Token>)
    requires |es| >= 2
    ensures PrintList(es) + rest == PrintType(es[0]) + ([Comma] + (PrintList(es[1..]) + rest))
  {
    assert PrintList(es) == PrintType(es[0]) + [Comma] + PrintList(es[1..]);
    Regroup(PrintType(es[0]), Comma, PrintList(es[1..]), rest);
  }

  lemma Regroup(a: seq<Token>, sep: Token, b: seq<Token>, rest: seq<Token>)
    ensures a + [sep] + b + rest == a + ([sep] + (b + rest))
  {
  }

  // ---------------------------------------------------------------- lex after render

  ghost predicate GoodToken(tok: Token) {
    match tok
    case Ident(s) => IsIdent(s)
    case Stray(_) => false
    case _ => true
  }

  /** Every token is printable and no two identifiers touch. */
  ghost predicate Spaced(toks: seq<Token>)
    decreases |toks|
  {
    || |toks| == 0
    || (&& GoodToken(toks[0])
        && (|toks| >= 2 ==> !(toks[0].Ident? && toks[1].Ident?))
        && Spaced(toks[1..]))
  }

  lemma {:induction false} SpacedJoin(a: seq<Token>, p: Token, b: seq<Token>)
    requires Spaced(a) && Spaced(b) && GoodToken(p) && !p.Ident?
    ensures Spaced(a + [p] + b)
    decreases |a|
  {
    if |a| == 0 {
      assert a + [p] + b == [p] + b;
      assert ([p] + b)[1..] == b;
    } else {
      SpacedJoin(a[1..], p, b);
      assert (a + [p] + b)[1..] == a[1..] + [p] + b;
    }
  }

  lemma SpacedWrap(p: Token, a: seq<Token>, q: Token)
    requires Spaced(a) && GoodToken(p) && GoodToken(q) && !p.Ident? && !q.Ident?
    ensures Spaced([p] + a + [q])
  {
    SpacedJoin([p], q, []);
    SpacedJoin([], p, a + [q]) by {
      SpacedJoin(a, q, []);
      assert a + [q] + [] == a + [q];
    }
    assert [] + [p] + (a + [q]) == [p] + a + [q];
  }

  lemma {:induction false} PrintSpaced(t: Ts)
    requires WF(t)
    ensures Spaced(PrintType(t)) && Spaced(PrintOperand(t))
    decreases TsSize(t), 1
  {
    match t
    case Name(n) =>
    case Union(ms) =>
      MembersSpaced(ms);
      SpacedWrap(LParen, PrintMembers(ms), RParen);
    case Array(e) =>
      PrintSpaced(e);
      SpacedJoin(PrintOperand(e), LBrack, [RBrack]);
      assert PrintOperand(e) + [LBrack] + [RBrack] == PrintOperand(t);
    case Record(k, v) => RecordSpaced(k, v);
    case Tuple(es) =>
      ListSpaced(es);
      SpacedWrap(LBrack, PrintList(es), RBrack);
  }

  lemma {:induction false} RecordSpaced(k: Ts, v: Ts)
    requires WF(k) && WF(v)
    ensures Spaced(PrintOperand(Record(k, v)))
    decreases TsSize(Record(k, v)), 0
  {
    PrintSpaced(k);
    PrintSpaced(v);
    SpacedRecordTokens(PrintType(k), PrintType(v));
  }

  lemma SpacedRecordTokens(pk: seq<Token>, pv: seq<Token>)
    requires Spaced(pk) && Spaced(pv)
    ensures Spaced([Ident("Record"), LAngle] + pk + [Comma] + pv + [RAngle])
  {
    var pair := pk + [Comma] + pv;
    SpacedJoin(pk, Comma, pv);
    SpacedJoin(pair, RAngle, []);
    SpacedRecordWord();
    SpacedJoin([Ident("Record")], LAngle, pair + [RAngle] + []);
    RecordShape(pk, pv);
  }

  lemma SpacedRecordWord()
    ensures Spaced([Ident("Record")])
  {
    assert IsIdent("Record");
    assert [Ident("Record")][1..] == [];
  }

  lemma RecordShape(pk: seq<Token>, pv: seq<Token>)
    ensures [Ident("Record")] + [LAngle] + (pk + [Comma] + pv + [RAngle] + [])
      == [Ident("Record"), LAngle] + pk + [Comma] + pv + [RAngle]
  {
  }

  lemma {:induction false} MembersSpaced(ms: seq<Ts>)
    requires forall i :: 0 <= i < |ms| ==> WF(ms[i])
    ensures Spaced(PrintMembers(ms))
    decreases TsSizeSeq(ms), 2
  {
    if |ms| >= 1 {
      PrintSpaced(ms[0]);
    }
    if |ms| >= 2 {
      MembersSpaced(ms[1..]);
      SpacedJoin(PrintOperand(ms[0]), Pipe, PrintMembers(ms[1..]));
    }
  }

  lemma {:induction false} ListSpaced(es: seq<Ts>)
    requires forall i :: 0 <= i < |es| ==> WF(es[i])
    ensures Spaced(PrintList(es))
    decreases TsSizeSeq(es), 2
  {
    if |es| >= 1 {
      PrintSpaced(es[0]);
    }
    if |es| >= 2 {
      ListSpaced(es[1..]);
      SpacedJoin(PrintType(es[0]), Comma, PrintList(es[1..]));
    }
  }

  lemma {:induction false} IdentLenAppend(a: string, b: string)
    requires IdentLen(a) < |a| || |b| == 0 || !IsIdentChar(b[0])
    ensures IdentLen(a + b) == IdentLen(a)
    decreases |a|
  {
    if |a| > 0 && IsIdentChar(a[0]) {
      assert (a + b)[1..] == a[1..] + b;
      IdentLenAppend(a[1..], b);
    } else if |a| == 0 {
      assert a + b == b;
    }
  }

  lemma LexSkip(s: string)
    requires |s| > 0 && (s[0] == ' ' || !IsIdentChar(s[0]))
    ensures Lex(s) == (if s[0] == ' ' then [] else [Punct(s[0])]) + Lex(s[1..])
  {
  }

  lemma LexRun(s: string)
    requires |s| > 0 && IsIdentChar(s[0])
    ensures Lex(s) == [Ident(s[..IdentLen(s)])] + Lex(s[IdentLen(s)..])
  {
  }

  /** Lexing distributes over a concatenation that does not glue two identifiers. */
  lemma {:induction false} LexAppend(a: string, b: string)
    requires !(|a| > 0 && |b| > 0 && IsIdentChar(a[|a| - 1]) && IsIdentChar(b[0]))
    ensures Lex(a + b) == Lex(a) + Lex(b)
    decreases |a|, 1
  {
    if |a| == 0 {
      assert a + b == b;
    } else if a[0] == ' ' || !IsIdentChar(a[0]) {
      LexAppendSkip(a, b);
    } else {
      LexAppendRun(a, b);
    }
  }

  lemma {:induction false} LexAppendSkip(a: string, b: string)
    requires |a| > 0 && (a[0] == ' ' || !IsIdentChar(a[0]))
    requires !(|b| > 0 && IsIdentChar(a[|a| - 1]) && IsIdentChar(b[0]))
    ensures Lex(a + b) == Lex(a) + Lex(b)
    decreases |a|, 0
  {
    var ab := a + b;
    assert ab[0] == a[0];
    assert ab[1..] == a[1..] + b;
    LexAppend(a[1..], b);
    LexSkip(a);
    LexSkip(ab);
    var p: seq<Token> := if a[0] == ' ' then [] else [Punct(a[0])];
    assert Lex(ab) == p + (Lex(a[1..]) + Lex(b));
    assert Lex(a) == p + Lex(a[1..]);
  }

  lemma {:induction false} LexAppendRun(a: string, b: string)
    requires |a| > 0 && IsIdentChar(a[0])
    requires !(|b| > 0 && IsIdentChar(a[|a| - 1]) && IsIdentChar(b[0]))
    ensures Lex(a + b) == Lex(a) + Lex(b)
    decreases |a|, 0
  {
    var k := IdentLen(a);
    assert k == |a| ==> IsIdentChar(a[|a| - 1]);
    IdentLenAppend(a, b);
    RunPieces(a, b, k);
    LexAppend(a[k..], b);
    LexRun(a);
    LexRun(a + b);
    Reassociate([Ident(a[..k])], Lex(a[k..]), Lex(b));
  }

  lemma RunPieces(a: string, b: string, k: nat)
    requires k <= |a|
    ensures (a + b)[..k] == a[..k] && (a + b)[k..] == a[k..] + b
  {
  }

  lemma Reassociate(x: seq<Token>, y: seq<Token>, z: seq<Token>)
    ensures x + (y + z) == (x + y) + z
  {
  }

  lemma {:induction false} IdentLenFull(s: string)
    requires forall i :: 0 <= i < |s| ==> IsIdentChar(s[i])
    ensures IdentLen(s) == |s|
    decreases |s|
  {
    if |s| > 0 {
      IdentLenFull(s[1..]);
    }
  }

  lemma LexIdent(s: string)
    requires IsIdent(s)
    ensures Lex(s) == [Ident(s)]
  {
    IdentLenFull(s);
    assert s[..|s|] == s;
    assert s[|s|..] == "";
  }

  lemma LexToken(tok: Token)
    requires GoodToken(tok)
    ensures Lex(Text(tok)) == [tok]
  {
    match tok
    case Ident(s) => LexIdent(s);
    case Pipe =>
      assert Lex(" | ") == Lex("| ");
      assert Lex("| ") == [Pipe] + Lex(" ");
      assert Lex(" ") == Lex("");
    case Comma =>
      assert Lex(", ") == [Comma] + Lex(" ");
      assert Lex(" ") == Lex("");
    case _ =>
  }

  /** The lexer recovers a spaced token sequence from its rendering. */
  lemma {:induction false} LexRender(toks: seq<Token>)
    requires Spaced(toks)
    ensures Lex(Render(toks)) == toks
    decreases |toks|
  {
    if |toks| > 0 {
      var head := Text(toks[0]);
      var tail := Render(toks[1..]);
      LexRender(toks[1..]);
      if |toks| > 1 {
        assert !toks[1].Stray? && GoodToken(toks[1]);
        assert tail[0] == Text(toks[1])[0];
      }
      LexAppend(head, tail);
      LexToken(toks[0]);
    }
  }

  lemma {:induction false} RenderAppend(a: seq<Token>, b: seq<Token>)
    ensures Render(a + b) == Render(a) + Render(b)
    decreases |a|
  {
    if |a| == 0 {
      assert a + b == b;
    } else {
      assert (a + b)[1..] == a[1..] + b;
      RenderAppend(a[1..], b);
    }
  }

  /** Only a bare name prints as a single identifier. */
  lemma NameOfRendered(d: Ts, n: string)
    requires WF(d) && IsIdent(n) && Render(PrintType(d)) == n
    ensures d == Name(n)
  {
    PrintSpaced(d);
    LexRender(PrintType(d));
    LexIdent(n);
    assert PrintType(d) == [Ident(n)];
    match d
    case Name(_) =>
    case Union(_) =>
    case Array(_) =>
    case Record(_, _) =>
    case Tuple(_) =>
  }

  lemma RenderOperand(d: Ts)
    ensures Render(PrintOperand(d)) == if d.Union? then "(" + Render(PrintType(d)) + ")" else Render(PrintType(d))
  {
    if d.Union? {
      RenderAppend([LParen] + PrintMembers(d.members), [RParen]);
      RenderAppend([LParen], PrintMembers(d.members));
    }
  }

  lemma RenderArray(d: Ts)
    ensures Render(PrintType(Array(d))) == Render(PrintOperand(d)) + "[]"
  {
    RenderAppend(PrintOperand(d), [LBrack, RBrack]);
  }

  lemma RenderSeparated(a: seq<Token>, sep: Token, b: seq<Token>)
    ensures Render(a + [sep] + b) == Render(a) + Text(sep) + Render(b)
  {
    RenderAppend(a + [sep], b);
    RenderAppend(a, [sep]);
  }

  lemma RenderRecord(k: Ts, v: Ts)
    ensures Render(PrintType(Record(k, v))) == "Record<" + Render(PrintType(k)) + ", " + Render(PrintType(v)) + ">"
  {
    RenderRecordTokens(PrintType(k), PrintType(v));
  }

  lemma RenderRecordTokens(pk: seq<Token>, pv: seq<Token>)
    ensures Render([Ident("Record"), LAngle] + pk + [Comma] + pv + [RAngle]) == "Record<" + Render(pk) + ", " + Render(pv) + ">"
  {
    var opening: seq<Token> := [Ident("Record"), LAngle];
    assert Render(opening) == "Record<" by {
      assert Render(opening) == "Record" + Render([LAngle]);
      assert Render([LAngle]) == "<" + Render([]);
    }
    assert Render([Comma]) == ", " by {
      assert Render([Comma]) == ", " + Render([]);
    }
    assert Render([RAngle]) == ">" by {
      assert Render([RAngle]) == ">" + Render([]);
    }
    calc {
      Render(opening + pk + [Comma] + pv + [RAngle]);
      { RenderAppend(opening + pk + [Comma] + pv, [RAngle]); }
      Render(opening + pk + [Comma] + pv) + ">";
      { RenderAppend(opening + pk + [Comma], pv); }
      Render(opening + pk + [Comma]) + Render(pv) + ">";
      { RenderAppend(opening + pk, [Comma]); }
      Render(opening + pk) + ", " + Render(pv) + ">";
      { RenderAppend(opening, pk); }
      "Record<" + Render(pk) + ", " + Render(pv) + ">";
    }
  }

  lemma RenderTuple(es: seq<Ts>)
    ensures Render(PrintType(Tuple(es))) == "[" + Render(PrintList(es)) + "]"
  {
    RenderAppend([LBrack] + PrintList(es), [RBrack]);
    RenderAppend([LBrack], PrintList(es));
  }

  /** Reading the canonical text of a well-formed type gives that type back: the
      canonical text is unambiguous under TypeScript's precedence. */
  lemma ReadRendered(t: Ts)
    requires WF(t)
    ensures ReadTs(Render(PrintType(t))) == Some(t)
  {
    PrintSpaced(t);
    LexRender(PrintType(t));
    TypeOf(t, []);
    assert PrintType(t) + [] == PrintType(t);
  }
}
