/** Identifier casing: the generator's snake_case to camelCase / PascalCase helpers,
    and the two key converters of the generated TypeScript runtime, which translate
    request keys to the wire spelling and response keys back. */
module Casing {
  import opened Strings

  predicate IsUpper(c: char) { 'A' <= c <= 'Z' }
  predicate IsLower(c: char) { 'a' <= c <= 'z' }
  predicate IsLetter(c: char) { IsUpper(c) || IsLower(c) }

  function ToUpper(c: char): (r: char)
    ensures IsLetter(c) ==> IsUpper(r)
    ensures !IsLower(c) ==> r == c
  {
    if IsLower(c) then (c as int - 32) as char else c
  }

  function ToLower(c: char): (r: char)
    ensures IsLetter(c) ==> IsLower(r)
    ensures !IsUpper(c) ==> r == c
  {
    if IsUpper(c) then (c as int + 32) as char else c
  }

  /** `str.title()` with ASCII case mapping, continuing after a character that was
      (`prevCased`) or was not a letter: a letter is upper-cased exactly when it
      starts a run of letters, lower-cased otherwise, and nothing else changes. */
  function TitleFrom(s: string, prevCased: bool): (r: string)
    ensures |r| == |s|
    ensures forall i :: 0 <= i < |s| ==> (IsLetter(r[i]) <==> IsLetter(s[i]))
    ensures forall i :: 0 <= i < |s| && !IsLetter(s[i]) ==> r[i] == s[i]
    ensures forall i :: 0 < i < |s| && IsLetter(s[i]) ==> (IsUpper(r[i]) <==> !IsLetter(s[i - 1]))
    ensures |s| > 0 && IsLetter(s[0]) ==> (IsUpper(r[0]) <==> !prevCased)
    ensures forall i :: 0 <= i < |s| ==> ToLower(r[i]) == ToLower(s[i])
    decreases |s|
  {
    if |s| == 0 then ""
    else
      var c := if !IsLetter(s[0]) then s[0] else if prevCased then ToLower(s[0]) else ToUpper(s[0]);
      var rest := TitleFrom(s[1..], IsLetter(s[0]));
      TitleStep(s, prevCased, c, rest);
      [c] + rest
  }

  /** One step of title-casing: the first character mapped, the rest already title-cased. */
  lemma TitleStep(s: string, prevCased: bool, c: char, rest: string)
    requires |s| > 0 && |rest| == |s| - 1
    requires c == if !IsLetter(s[0]) then s[0] else if prevCased then ToLower(s[0]) else ToUpper(s[0])
    requires forall i :: 0 <= i < |rest| ==> (IsLetter(rest[i]) <==> IsLetter(s[1..][i]))
    requires forall i :: 0 <= i < |rest| && !IsLetter(s[1..][i]) ==> rest[i] == s[1..][i]
    requires forall i :: 0 < i < |rest| && IsLetter(s[1..][i]) ==> (IsUpper(rest[i]) <==> !IsLetter(s[1..][i - 1]))
    requires |rest| > 0 && IsLetter(s[1]) ==> (IsUpper(rest[0]) <==> !IsLetter(s[0]))
    requires forall i :: 0 <= i < |rest| ==> ToLower(rest[i]) == ToLower(s[1..][i])
    ensures forall i :: 0 <= i < |s| ==> (IsLetter(([c] + rest)[i]) <==> IsLetter(s[i]))
    ensures forall i :: 0 <= i < |s| && !IsLetter(s[i]) ==> ([c] + rest)[i] == s[i]
    ensures forall i :: 0 < i < |s| && IsLetter(s[i]) ==> (IsUpper(([c] + rest)[i]) <==> !IsLetter(s[i - 1]))
    ensures IsLetter(s[0]) ==> (IsUpper(([c] + rest)[0]) <==> !prevCased)
    ensures forall i :: 0 <= i < |s| ==> ToLower(([c] + rest)[i]) == ToLower(s[i])
  {
    var r := [c] + rest;
    forall i | 0 < i < |s| ensures r[i] == rest[i - 1] && s[i] == s[1..][i - 1] {
    }
  }

  /** `str.title()`. */
  function Title(s: string): string {
    TitleFrom(s, false)
  }

  lemma TitleExcludesUnderscore(s: string)
    requires '_' !in s
    ensures '_' !in Title(s)
  {
    var r := Title(s);
    forall i | 0 <= i < |r| ensures r[i] != '_' {
      if !IsLetter(s[i]) {
        assert r[i] == s[i];
      }
    }
  }

  /** Title-casing each piece of a split name. */
  function TitleAll(parts: seq<string>): (r: seq<string>)
    ensures |r| == |parts|
    ensures forall i :: 0 <= i < |parts| ==> r[i] == Title(parts[i])
  {
    seq(|parts|, i requires 0 <= i < |parts| => Title(parts[i]))
  }

  /** `"".join(parts)`. */
  function Concat(parts: seq<string>): string {
    Join(parts, "")
  }

  lemma TitledExcludesUnderscore(parts: seq<string>)
    requires forall i :: 0 <= i < |parts| ==> '_' !in parts[i]
    ensures '_' !in Concat(TitleAll(parts))
  {
    var titled := TitleAll(parts);
    forall i | 0 <= i < |titled| ensures '_' !in titled[i] {
      TitleExcludesUnderscore(parts[i]);
    }
    JoinExcludes(titled, "", '_');
  }

  /** `python_name_to_camel_case`: the first `_`-separated piece as is, the others
      title-cased, all glued together. */
  function CamelCase(name: string): (r: string)
    ensures '_' !in r
    ensures '_' !in name ==> r == name
  {
    var parts := Split(name, '_');
    var tail := TitleAll(parts[1..]);
    TitledExcludesUnderscore(parts[1..]);
    assert '_' !in name ==> parts == [name] by {
      if '_' !in name { SplitWithoutSeparator(name, '_'); }
    }
    parts[0] + Concat(tail)
  }

  /** `python_name_to_pascal_case`: every `_`-separated piece title-cased, glued together. */
  function PascalCase(name: string): (r: string)
    ensures '_' !in r
  {
    var parts := TitleAll(Split(name, '_'));
    TitledExcludesUnderscore(Split(name, '_'));
    Concat(parts)
  }

  /** The generated runtime's `convertKeysToSnakeCase` on one key: every ASCII capital
      becomes `_` and its lower-case form. */
  function WireKey(key: string): (r: string)
    ensures forall i :: 0 <= i < |r| ==> !IsUpper(r[i])
    decreases |key|
  {
    if |key| == 0 then ""
    else if IsUpper(key[0]) then "_" + [ToLower(key[0])] + WireKey(key[1..])
    else [key[0]] + WireKey(key[1..])
  }

  /** The generated runtime's `convertKeysToCamelCase` on one key: every `_` followed
      by a lower-case ASCII letter becomes that letter's capital, scanning left to right. */
  function ClientKey(key: string): string
    decreases |key|
  {
    if |key| == 0 then ""
    else if |key| >= 2 && key[0] == '_' && IsLower(key[1]) then [ToUpper(key[1])] + ClientKey(key[2..])
    else [key[0]] + ClientKey(key[1..])
  }

  /** A conventional snake_case name: lower-case ASCII letters, each `_` followed by a letter. */
  ghost predicate SnakeName(n: string) {
    && (forall i :: 0 <= i < |n| ==> IsLower(n[i]) || n[i] == '_')
    && (forall i :: 0 <= i < |n| && n[i] == '_' ==> i + 1 < |n| && IsLower(n[i + 1]))
  }

  lemma {:induction false} TitleFromLowerCased(s: string)
    requires forall i :: 0 <= i < |s| ==> IsLower(s[i])
    ensures TitleFrom(s, true) == s
    decreases |s|
  {
    if |s| > 0 {
      TitleFromLowerCased(s[1..]);
      calc {
        TitleFrom(s, true);
        [ToLower(s[0])] + TitleFrom(s[1..], true);
        [s[0]] + s[1..];
        s;
      }
    }
  }

  /** A leading non-underscore character passes through camel-casing unchanged. */
  lemma CamelCaseCons(n: string)
    requires |n| > 0 && n[0] != '_'
    ensures CamelCase(n) == [n[0]] + CamelCase(n[1..])
  {
    var rest := Split(n[1..], '_');
    SplitCons(n);
    assert Split(n, '_')[1..] == rest[1..];
  }

  /** A leading underscore makes the rest PascalCase. */
  lemma CamelCaseUnderscore(n: string)
    requires |n| > 0 && n[0] == '_'
    ensures CamelCase(n) == PascalCase(n[1..])
  {
    var rest := Split(n[1..], '_');
    assert Split(n, '_') == [""] + rest;
    assert Split(n, '_')[1..] == rest;
  }

  /** The first `_`-separated piece after a snake name's first letter is all lower-case. */
  lemma FirstPieceLower(m: string)
    requires SnakeName(m) && |m| > 0
    ensures forall i :: 0 <= i < |Split(m[1..], '_')[0]| ==> IsLower(Split(m[1..], '_')[0][i])
  {
    var p := Split(m[1..], '_')[0];
    forall i | 0 <= i < |p| ensures IsLower(p[i]) {
      assert p[i] == m[i + 1];
      assert p[i] in p;
    }
  }

  /** A lower-case word is title-cased by capitalising its first letter. */
  lemma TitleLowerWord(c: char, s: string)
    requires IsLower(c) && forall i :: 0 <= i < |s| ==> IsLower(s[i])
    ensures Title([c] + s) == [ToUpper(c)] + s
  {
    assert ([c] + s)[1..] == s;
    TitleFromLowerCased(s);
  }

  lemma ConcatCons(parts: seq<string>)
    requires |parts| >= 1
    ensures Concat(parts) == parts[0] + Concat(parts[1..])
  {
    if |parts| == 1 {
      assert parts[0] + "" == parts[0];
    }
  }

  /** Title-casing a list piece by piece, split after its first piece. */
  lemma TitleAllCons(p: string, ps: seq<string>)
    ensures TitleAll([p] + ps) == [Title(p)] + TitleAll(ps)
  {
    var l, r := TitleAll([p] + ps), [Title(p)] + TitleAll(ps);
    assert |l| == |r|;
    forall i | 0 <= i < |l| ensures l[i] == r[i] {
      if i > 0 {
        assert ([p] + ps)[i] == ps[i - 1];
      }
    }
  }

  /** A leading non-separator character joins the first piece. */
  lemma SplitCons(n: string)
    requires |n| > 0 && n[0] != '_'
    ensures Split(n, '_') == [[n[0]] + Split(n[1..], '_')[0]] + Split(n[1..], '_')[1..]
  {
  }

  /** A snake name's PascalCase is its first letter capitalised, then its camelCase. */
  lemma PascalCaseSnake(m: string)
    requires SnakeName(m) && |m| > 0 && IsLower(m[0])
    ensures PascalCase(m) == [ToUpper(m[0])] + CamelCase(m[1..])
  {
    FirstPieceLower(m);
    assert m == [m[0]] + m[1..];
    PascalCaseLowerHead(m[0], m[1..]);
  }

  /** The same, for a lower-case letter followed by a lower-case first piece. */
  lemma PascalCaseLowerHead(c: char, t: string)
    requires IsLower(c)
    requires forall i :: 0 <= i < |Split(t, '_')[0]| ==> IsLower(Split(t, '_')[0][i])
    ensures PascalCase([c] + t) == [ToUpper(c)] + CamelCase(t)
  {
    var rest := Split(t, '_');
    var head := [c] + rest[0];
    var tail := Concat(TitleAll(rest[1..]));
    assert ([c] + t)[1..] == t;
    calc {
      PascalCase([c] + t);
      Concat(TitleAll(Split([c] + t, '_')));
      { SplitCons([c] + t); }
      Concat(TitleAll([head] + rest[1..]));
      { TitleAllCons(head, rest[1..]); }
      Concat([Title(head)] + TitleAll(rest[1..]));
      { ConcatCons([Title(head)] + TitleAll(rest[1..]));
        assert ([Title(head)] + TitleAll(rest[1..]))[1..] == TitleAll(rest[1..]); }
      Title(head) + tail;
      { TitleLowerWord(c, rest[0]); }
      ([ToUpper(c)] + rest[0]) + tail;
      [ToUpper(c)] + (rest[0] + tail);
      [ToUpper(c)] + CamelCase(t);
    }
  }

  lemma SnakeNameSuffix(n: string, k: nat)
    requires SnakeName(n) && k <= |n|
    ensures SnakeName(n[k..])
  {
  }

  /** On conventional snake_case names the generator's camelCase agrees with the
      runtime's response-key conversion, so a generated field name is the key the
      client actually sees. */
  lemma {:induction false} CamelCaseMatchesClientKey(n: string)
    requires SnakeName(n)
    ensures CamelCase(n) == ClientKey(n)
    decreases |n|
  {
    if |n| > 0 {
      if n[0] == '_' {
        CamelCaseUnderscore(n);
        SnakeNameSuffix(n, 1);
        PascalCaseSnake(n[1..]);
        SnakeNameSuffix(n, 2);
        assert n[1..][1..] == n[2..];
        CamelCaseMatchesClientKey(n[2..]);
      } else {
        CamelCaseCons(n);
        SnakeNameSuffix(n, 1);
        CamelCaseMatchesClientKey(n[1..]);
      }
    }
  }

  /** On conventional snake_case names the runtime's request-key conversion undoes
      camelCase: the wire always carries the registry's original name. */
  lemma {:induction false} WireKeyUndoesCamelCase(n: string)
    requires SnakeName(n)
    ensures WireKey(CamelCase(n)) == n
    decreases |n|
  {
    CamelCaseMatchesClientKey(n);
    WireKeyUndoesClientKey(n);
  }

  lemma {:induction false} WireKeyUndoesClientKey(n: string)
    requires SnakeName(n)
    ensures WireKey(ClientKey(n)) == n
    decreases |n|
  {
    if |n| > 0 {
      SnakeNameSuffix(n, 1);
      if n[0] == '_' {
        SnakeNameSuffix(n, 2);
        WireKeyUndoesClientKey(n[2..]);
        var r := [ToUpper(n[1])] + ClientKey(n[2..]);
        assert r[1..] == ClientKey(n[2..]);
        assert ToLower(ToUpper(n[1])) == n[1];
        assert n == "_" + [n[1]] + n[2..];
      } else {
        WireKeyUndoesClientKey(n[1..]);
        var r := [n[0]] + ClientKey(n[1..]);
        assert r[1..] == ClientKey(n[1..]);
        assert n == [n[0]] + n[1..];
      }
    }
  }

  /** Outside that convention the two disagree: a digit after `_` is dropped from the
      generated name but kept by the runtime, so the declared field `line2` never
      matches the response key `line_2`. */
  lemma CamelCaseDigitDisagrees()
    ensures CamelCase("line_2") == "line2"
    ensures ClientKey("line_2") == "line_2"
  {
    CamelCaseLine2();
    ClientKeyLine2();
  }

  lemma CamelCaseLine2()
    ensures CamelCase("line_2") == "line2"
  {
    var parts := Split("line_2", '_');
    SplitLine2();
    TitleDigit();
    calc {
      CamelCase("line_2");
      parts[0] + Concat(TitleAll(parts[1..]));
      { assert parts[1..] == ["2"]; assert TitleAll(["2"]) == ["2"]; }
      "line" + Concat(["2"]);
      { ConcatCons(["2"]); assert ["2"][1..] == []; }
      "line" + ("2" + Concat([]));
      "line2";
    }
  }

  lemma SplitLine2()
    ensures Split("line_2", '_') == ["line", "2"]
  {
    assert "line" + ['_'] + "2" == "line_2";
    SplitAtSeparator("line", '_', "2");
    SplitWithoutSeparator("2", '_');
  }

  lemma TitleDigit()
    ensures Title("2") == "2"
  {
    assert TitleFrom("2", false) == ['2'] + TitleFrom("", false);
  }

  lemma ClientKeyLine2()
    ensures ClientKey("line_2") == "line_2"
  {
    assert ClientKey("2") == "2";
    assert ClientKey("_2") == "_" + ClientKey("2");
    assert ClientKey("e_2") == "e" + ClientKey("_2");
    assert ClientKey("ne_2") == "n" + ClientKey("e_2");
    assert ClientKey("ine_2") == "i" + ClientKey("ne_2");
    assert ClientKey("line_2") == "l" + ClientKey("ine_2");
  }
}
