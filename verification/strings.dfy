/** Python string primitives the bridge relies on: `str.join`, `str.split` with a
    one-character separator, `str.strip`, the code-point ordering `sorted()` uses,
    and sorting a set of names into that order. */
module Strings {

  /** `sep.join(parts)`. */
  function Join(parts: seq<string>, sep: string): string
  {
    if |parts| == 0 then ""
    else if |parts| == 1 then parts[0]
    else parts[0] + sep + Join(parts[1..], sep)
  }

  /** `s.split(c)`: the maximal separator-free pieces of `s`, in order. */
  function Split(s: string, c: char): (r: seq<string>)
    ensures |r| >= 1
    ensures |r[0]| <= |s| && r[0] == s[..|r[0]|]
    ensures forall i :: 0 <= i < |r| ==> c !in r[i]
    decreases |s|
  {
    if |s| == 0 then [""]
    else
      var rest := Split(s[1..], c);
      if s[0] == c then [""] + rest
      else [[s[0]] + rest[0]] + rest[1..]
  }

  /** Joining the pieces back with the separator gives the original string. */
  lemma {:induction false} JoinSplit(s: string, c: char)
    ensures Join(Split(s, c), [c]) == s
    decreases |s|
  {
    if |s| > 0 {
      var rest := Split(s[1..], c);
      JoinSplit(s[1..], c);
      if s[0] == c {
        assert Split(s, c) == [""] + rest;
        assert ([""] + rest)[1..] == rest;
      } else {
        var r := Split(s, c);
        assert r == [[s[0]] + rest[0]] + rest[1..];
        if |rest| > 1 {
          assert r[1..] == rest[1..];
          assert Join(rest, [c]) == rest[0] + [c] + Join(rest[1..], [c]);
        }
      }
    }
  }

  /** A join of separator-free pieces with a separator-free glue is separator-free. */
  lemma {:induction false} JoinExcludes(parts: seq<string>, sep: string, c: char)
    requires c !in sep
    requires forall i :: 0 <= i < |parts| ==> c !in parts[i]
    ensures c !in Join(parts, sep)
    decreases |parts|
  {
    if |parts| > 1 {
      JoinExcludes(parts[1..], sep, c);
    }
  }

  /** A string without the separator splits into itself alone. */
  lemma {:induction false} SplitWithoutSeparator(s: string, c: char)
    requires c !in s
    ensures Split(s, c) == [s]
    decreases |s|
  {
    if |s| > 0 {
      assert c !in s[1..];
      SplitWithoutSeparator(s[1..], c);
      assert [s[0]] + s[1..] == s;
    }
  }

  /** Splitting `a + c + b` cuts exactly at the inserted separator. */
  lemma {:induction false} SplitAtSeparator(a: string, c: char, b: string)
    requires c !in a
    ensures Split(a + [c] + b, c) == [a] + Split(b, c)
    decreases |a|
  {
    if |a| == 0 {
      assert a + [c] + b == [c] + b;
      assert ([c] + b)[1..] == b;
    } else {
      var s := a + [c] + b;
      assert s[1..] == a[1..] + [c] + b;
      assert c !in a[1..];
      SplitAtSeparator(a[1..], c, b);
      assert [a[0]] + a[1..] == a;
    }
  }

  /** The other half of the round trip: separator-free pieces survive join-then-split. */
  lemma {:induction false} SplitJoin(parts: seq<string>, c: char)
    requires |parts| >= 1
    requires forall i :: 0 <= i < |parts| ==> c !in parts[i]
    ensures Split(Join(parts, [c]), c) == parts
    decreases |parts|
  {
    if |parts| == 1 {
      SplitWithoutSeparator(parts[0], c);
    } else {
      SplitJoin(parts[1..], c);
      SplitAtSeparator(parts[0], c, Join(parts[1..], [c]));
      assert [parts[0]] + parts[1..] == parts;
    }
  }

  // ---------------------------------------------------------------- pieces of a text, in order

  /** The `pieces` occur in `text` at the offsets `at`, each after the previous one
      ends. */
  predicate InOrder(text: string, pieces: seq<string>, at: seq<nat>) {
    |at| == |pieces|
    && (forall k :: 0 <= k < |at| ==> at[k] + |pieces[k]| <= |text| && text[at[k]..at[k] + |pieces[k]|] == pieces[k])
    && (forall k, l :: 0 <= k < l < |at| ==> at[k] + |pieces[k]| <= at[l])
  }

  function Shift(at: seq<nat>, d: nat): (r: seq<nat>)
    ensures |r| == |at| && forall k :: 0 <= k < |at| ==> r[k] == at[k] + d
  {
    seq(|at|, k requires 0 <= k < |at| => at[k] + d)
  }

  /** Pieces in order in two texts stay in order in the texts' concatenation. */
  lemma InOrderConcat(a: string, ps: seq<string>, pa: seq<nat>, b: string, qs: seq<string>, qa: seq<nat>)
    requires InOrder(a, ps, pa) && InOrder(b, qs, qa)
    ensures InOrder(a + b, ps + qs, pa + Shift(qa, |a|))
  {
    var pieces, at := ps + qs, pa + Shift(qa, |a|);
    forall k | 0 <= k < |at| ensures at[k] + |pieces[k]| <= |a + b| && (a + b)[at[k]..at[k] + |pieces[k]|] == pieces[k] {
      if k < |ps| {
        assert pieces[k] == ps[k] && at[k] == pa[k];
        LeftOccurs(a, b, ps[k], pa[k]);
      } else {
        var j := k - |ps|;
        assert pieces[k] == qs[j] && at[k] == qa[j] + |a|;
        RightOccurs(a, b, qs[j], qa[j]);
      }
    }
    forall k, l | 0 <= k < l < |at| ensures at[k] + |pieces[k]| <= at[l] {
      ConcatOrdered(a, ps, pa, qs, qa, k, l);
    }
  }

  lemma ConcatOrdered(a: string, ps: seq<string>, pa: seq<nat>, qs: seq<string>, qa: seq<nat>, k: nat, l: nat)
    requires InOrder(a, ps, pa) && |qa| == |qs|
    requires forall k, l :: 0 <= k < l < |qa| ==> qa[k] + |qs[k]| <= qa[l]
    requires k < l < |pa| + |qa|
    ensures (pa + Shift(qa, |a|))[k] + |(ps + qs)[k]| <= (pa + Shift(qa, |a|))[l]
  {
    var at := pa + Shift(qa, |a|);
    if l < |ps| {
      assert (ps + qs)[k] == ps[k] && at[k] == pa[k] && at[l] == pa[l];
    } else if k < |ps| {
      assert (ps + qs)[k] == ps[k] && at[k] == pa[k] && at[l] == qa[l - |ps|] + |a|;
    } else {
      assert (ps + qs)[k] == qs[k - |ps|] && at[k] == qa[k - |ps|] + |a| && at[l] == qa[l - |ps|] + |a|;
    }
  }

  lemma LeftOccurs(a: string, b: string, x: string, p: nat)
    requires p + |x| <= |a| && a[p..p + |x|] == x
    ensures (a + b)[p..p + |x|] == x
  {
    assert (a + b)[p..p + |x|] == a[p..p + |x|];
  }

  lemma RightOccurs(a: string, b: string, x: string, p: nat)
    requires p + |x| <= |b| && b[p..p + |x|] == x
    ensures (a + b)[|a| + p..|a| + p + |x|] == x
  {
    assert (a + b)[|a| + p..|a| + p + |x|] == b[p..p + |x|];
  }

  lemma InOrderNothing(text: string)
    ensures InOrder(text, [], [])
  {
  }

  lemma InOrderWhole(text: string)
    ensures InOrder(text, [text], [0])
  {
    assert text[0..|text|] == text;
  }

  /** `sep.join(parts)` holds its parts in order. */
  lemma {:induction false} JoinInOrder(parts: seq<string>, sep: string) returns (at: seq<nat>)
    ensures InOrder(Join(parts, sep), parts, at)
    decreases |parts|
  {
    if |parts| == 0 {
      at := [];
    } else if |parts| == 1 {
      InOrderWhole(parts[0]);
      at := [0];
    } else {
      var rest := JoinInOrder(parts[1..], sep);
      InOrderWhole(parts[0]);
      InOrderNothing(sep);
      InOrderConcat(parts[0], [parts[0]], [0], sep, [], []);
      assert [parts[0]] + [] == [parts[0]] && [0] + Shift([], |parts[0]|) == [0];
      InOrderConcat(parts[0] + sep, [parts[0]], [0], Join(parts[1..], sep), parts[1..], rest);
      assert [parts[0]] + parts[1..] == parts;
      at := [0] + Shift(rest, |parts[0] + sep|);
    }
  }

  /** Python's `str.isspace()` for one character: the ASCII whitespace and
      separator controls, NEL, and the Unicode space separators. */
  predicate IsSpace(ch: char) {
    var n := ch as int;
    n == 0x20 || (0x09 <= n <= 0x0D) || (0x1C <= n <= 0x1F) || n == 0x85 || n == 0xA0
    || n == 0x1680 || (0x2000 <= n <= 0x200A) || n == 0x2028 || n == 0x2029
    || n == 0x202F || n == 0x205F || n == 0x3000
  }

  function StripLeft(s: string): (r: string)
    ensures |r| <= |s| && r == s[|s| - |r|..]
    ensures |r| == 0 || !IsSpace(r[0])
    ensures forall k :: 0 <= k < |s| - |r| ==> IsSpace(s[k])
    decreases |s|
  {
    if |s| > 0 && IsSpace(s[0]) then StripLeft(s[1..]) else s
  }

  function StripRight(s: string): (r: string)
    ensures |r| <= |s| && r == s[..|r|]
    ensures |r| == 0 || !IsSpace(r[|r| - 1])
    ensures forall k :: |r| <= k < |s| ==> IsSpace(s[k])
    decreases |s|
  {
    if |s| > 0 && IsSpace(s[|s| - 1]) then StripRight(s[..|s| - 1]) else s
  }

  /** `s.strip()`: the longest infix of `s` that neither starts nor ends with whitespace. */
  function Strip(s: string): (r: string)
    ensures |r| <= |s|
    ensures |r| == 0 || (!IsSpace(r[0]) && !IsSpace(r[|r| - 1]))
    ensures (|s| == 0 || (!IsSpace(s[0]) && !IsSpace(s[|s| - 1]))) ==> r == s
  {
    StripRight(StripLeft(s))
  }

  /** What `strip` removes is whitespace only, from both ends: the result is the
      infix of `s` at the returned offset. */
  lemma StripTrims(s: string) returns (i: nat)
    ensures Trimmed(s, i, Strip(s))
  {
    var l := StripLeft(s);
    i := |s| - |l|;
    TrimmedBetween(s, l, StripRight(l));
  }

  /** Whitespace cut from the front of `s` leaves `l`, and from the back of `l`
      leaves `r`: `r` is then trimmed out of `s`. */
  lemma TrimmedBetween(s: string, l: string, r: string)
    requires |l| <= |s| && l == s[|s| - |l|..]
    requires forall k :: 0 <= k < |s| - |l| ==> IsSpace(s[k])
    requires |r| <= |l| && r == l[..|r|]
    requires forall k :: |r| <= k < |l| ==> IsSpace(l[k])
    ensures Trimmed(s, |s| - |l|, r)
  {
    var i := |s| - |l|;
    assert r == s[i..i + |r|];
    forall k | i + |r| <= k < |s| ensures IsSpace(s[k]) {
      assert s[k] == l[k - i];
    }
  }

  /** `t` is the infix of `s` starting at `i`, and only whitespace lies around it. */
  predicate Trimmed(s: string, i: nat, t: string) {
    i + |t| <= |s| && s[i..i + |t|] == t
    && (forall k :: 0 <= k < i ==> IsSpace(s[k]))
    && (forall k :: i + |t| <= k < |s| ==> IsSpace(s[k]))
  }

  /** Python's `<` on `str`: lexicographic by code point, a proper prefix first. */
  predicate Less(a: string, b: string)
    decreases |a|
  {
    if |a| == 0 then |b| > 0
    else if |b| == 0 then false
    else if a[0] != b[0] then a[0] < b[0]
    else Less(a[1..], b[1..])
  }

  lemma {:induction false} LessIrreflexive(a: string)
    ensures !Less(a, a)
    decreases |a|
  {
    if |a| > 0 {
      LessIrreflexive(a[1..]);
    }
  }

  lemma {:induction false} LessTransitive(a: string, b: string, c: string)
    requires Less(a, b) && Less(b, c)
    ensures Less(a, c)
    decreases |a|
  {
    if |a| > 0 && a[0] == b[0] && b[0] == c[0] {
      LessTransitive(a[1..], b[1..], c[1..]);
    }
  }

  lemma {:induction false} LessTotal(a: string, b: string)
    requires a != b
    ensures Less(a, b) || Less(b, a)
    decreases |a|
  {
    if |a| > 0 && |b| > 0 && a[0] == b[0] {
      assert a == [a[0]] + a[1..] && b == [b[0]] + b[1..];
      LessTotal(a[1..], b[1..]);
    }
  }

  lemma LessAsymmetric(a: string, b: string)
    requires Less(a, b)
    ensures !Less(b, a)
  {
    if Less(b, a) {
      LessTransitive(a, b, a);
      LessIrreflexive(a);
    }
  }

  /** The elements of a sequence, as a set. */
  function Elems(xs: seq<string>): set<string> {
    set x | x in xs
  }

  lemma ElemsEmpty(xs: seq<string>)
    ensures Elems(xs) == {} <==> xs == []
  {
    if xs != [] {
      assert xs[0] in Elems(xs);
    }
  }

  /** Strictly increasing in code-point order: what `sorted()` yields for a set of names. */
  ghost predicate StrictlySorted(xs: seq<string>) {
    forall i, j :: 0 <= i < j < |xs| ==> Less(xs[i], xs[j])
  }

  /** Inserts a new name into a strictly sorted sequence at its place. */
  function Insert(x: string, xs: seq<string>): (r: seq<string>)
    requires StrictlySorted(xs) && x !in xs
    ensures StrictlySorted(r)
    ensures Elems(r) == Elems(xs) + {x}
    ensures |r| == |xs| + 1
    decreases |xs|
  {
    if |xs| == 0 then [x]
    else if Less(x, xs[0]) then
      assert forall j :: 0 < j < |xs| ==> Less(x, xs[j]) by {
        forall j | 0 < j < |xs| { LessTransitive(x, xs[0], xs[j]); }
      }
      [x] + xs
    else
      LessTotal(x, xs[0]);
      var tail := Insert(x, xs[1..]);
      assert forall y :: y in tail ==> Less(xs[0], y) by {
        forall y | y in tail ensures Less(xs[0], y) {
          assert y in Elems(tail);
          if y != x {
            assert y in Elems(xs[1..]);
            var k :| 0 <= k < |xs[1..]| && xs[1..][k] == y;
            assert xs[k + 1] == y;
          }
        }
      }
      [xs[0]] + tail
  }

  /** `sorted(s)` for a set of names. */
  method SortSet(s: set<string>) returns (r: seq<string>)
    ensures StrictlySorted(r)
    ensures Elems(r) == s
    ensures |r| == |s|
  {
    r := [];
    var rest := s;
    while rest != {}
      invariant StrictlySorted(r)
      invariant Elems(r) !! rest && Elems(r) + rest == s
      invariant |r| + |rest| == |s|
      decreases rest
    {
      var x :| x in rest;
      r := Insert(x, r);
      rest := rest - {x};
    }
  }

  /** Two strictly sorted sequences with the same elements are the same sequence:
      the sorted order of a set is unique. */
  lemma {:induction false} SortedUnique(a: seq<string>, b: seq<string>)
    requires StrictlySorted(a) && StrictlySorted(b)
    requires Elems(a) == Elems(b)
    ensures a == b
    decreases |a|
  {
    if |a| > 0 {
      assert a[0] in Elems(b);
      assert b[0] in Elems(a);
      if a[0] != b[0] {
        var i :| 0 <= i < |b| && b[i] == a[0];
        var j :| 0 <= j < |a| && a[j] == b[0];
        assert Less(b[0], a[0]);
        assert Less(a[0], b[0]);
        LessAsymmetric(a[0], b[0]);
        assert false;
      }
      assert a[0] !in a[1..] by {
        forall k | 0 <= k < |a[1..]| ensures a[1..][k] != a[0] { LessIrreflexive(a[0]); }
      }
      assert b[0] !in b[1..] by {
        forall k | 0 <= k < |b[1..]| ensures b[1..][k] != b[0] { LessIrreflexive(b[0]); }
      }
      assert a == [a[0]] + a[1..] && b == [b[0]] + b[1..];
      assert Elems(a[1..]) == Elems(a) - {a[0]};
      assert Elems(b[1..]) == Elems(b) - {b[0]};
      SortedUnique(a[1..], b[1..]);
    } else {
      ElemsEmpty(b);
    }
  }

  lemma {:induction false} SortedExists(s: set<string>)
    ensures exists r :: StrictlySorted(r) && Elems(r) == s
    decreases s
  {
    if s == {} {
      assert StrictlySorted([]) && Elems([]) == s;
    } else {
      var x :| x in s;
      SortedExists(s - {x});
      var r :| StrictlySorted(r) && Elems(r) == s - {x};
      var r' := Insert(x, r);
      assert StrictlySorted(r') && Elems(r') == s;
    }
  }

  /** The sorted order of a set, as a specification-level value. */
  ghost function SortedOf(s: set<string>): (r: seq<string>)
    ensures StrictlySorted(r) && Elems(r) == s
  {
    SortedExists(s);
    var r :| StrictlySorted(r) && Elems(r) == s; r
  }

  /** The elements of `xs` that lie in `keep`, in their original order. */
  function FilterIn(xs: seq<string>, keep: set<string>): (r: seq<string>)
    ensures Elems(r) == Elems(xs) * keep
    ensures StrictlySorted(xs) ==> StrictlySorted(r)
    decreases |xs|
  {
    if |xs| == 0 then []
    else
      var tail := FilterIn(xs[1..], keep);
      assert xs == [xs[0]] + xs[1..];
      assert Elems(xs) == {xs[0]} + Elems(xs[1..]);
      assert Elems([xs[0]] + tail) == {xs[0]} + Elems(tail);
      if xs[0] in keep then
        assert StrictlySorted(xs) ==> forall y :: y in tail ==> Less(xs[0], y) by {
          if StrictlySorted(xs) {
            forall y | y in tail ensures Less(xs[0], y) {
              assert y in Elems(tail);
              assert y in Elems(xs[1..]);
              var k :| 0 <= k < |xs[1..]| && xs[1..][k] == y;
              assert xs[k + 1] == y;
            }
          }
        }
        [xs[0]] + tail
      else tail
  }

  lemma {:induction false} FilterInAppend(xs: seq<string>, ys: seq<string>, keep: set<string>)
    ensures FilterIn(xs + ys, keep) == FilterIn(xs, keep) + FilterIn(ys, keep)
    decreases |xs|
  {
    if |xs| > 0 {
      assert (xs + ys)[1..] == xs[1..] + ys;
      FilterInAppend(xs[1..], ys, keep);
    } else {
      assert xs + ys == ys;
    }
  }
}
