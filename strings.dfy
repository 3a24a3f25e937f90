/** The JavaScript string operations the source relies on: `trim`, `toLowerCase`, `includes`,
    `startsWith`, `split`, `join`, `pop`, `indexOf` and `slice` on the parts of a split. */
module Strings {

  /** The characters `String.prototype.trim` removes (white space and line terminators). */
  predicate IsWhitespace(c: char) {
    c == ' ' || c == '\t' || c == '\n' || c == '\r' || c == '\U{B}' || c == '\U{C}'
    || c == '\U{A0}' || c == '\U{1680}' || ('\U{2000}' <= c <= '\U{200A}')
    || c == '\U{2028}' || c == '\U{2029}' || c == '\U{202F}' || c == '\U{205F}'
    || c == '\U{3000}' || c == '\U{FEFF}'
  }

  predicate IsBlank(s: string) {
    forall i :: 0 <= i < |s| ==> IsWhitespace(s[i])
  }

  /** `s` without its leading white space. */
  function TrimStart(s: string): (r: string)
    ensures |r| <= |s| && r == s[|s| - |r|..]
    ensures r == [] || !IsWhitespace(r[0])
    ensures IsBlank(s[..|s| - |r|])
  {
    if s != [] && IsWhitespace(s[0]) then
      var r := TrimStart(s[1..]);
      assert s[..|s| - |r|] == [s[0]] + s[1..][..|s| - 1 - |r|];
      r
    else s
  }

  /** `s` without its trailing white space. */
  function TrimEnd(s: string): (r: string)
    ensures |r| <= |s| && r == s[..|r|]
    ensures r == [] || !IsWhitespace(r[|r| - 1])
    ensures IsBlank(s[|r|..])
  {
    if s != [] && IsWhitespace(s[|s| - 1]) then
      var r := TrimEnd(s[..|s| - 1]);
      assert s[|r|..] == s[..|s| - 1][|r|..] + [s[|s| - 1]];
      r
    else s
  }

  /** The number of white-space characters `trim` removes from the front of `s`. */
  function LeadingBlanks(s: string): (n: nat)
    ensures n <= |s| && IsBlank(s[..n])
    ensures n == |s| || !IsWhitespace(s[n])
  {
    |s| - |TrimStart(s)|
  }

  /** `String.prototype.trim`: `s` without its leading and trailing white space. The result
      neither starts nor ends with white space, and is empty exactly when `s` is blank;
      `TrimIsSlice` states that it is the slice of `s` between the two white-space runs. */
  function Trim(s: string): (r: string)
    ensures |r| <= |s|
    ensures r == [] || (!IsWhitespace(r[0]) && !IsWhitespace(r[|r| - 1]))
    ensures r == [] <==> IsBlank(s)
  {
    var t := TrimStart(s);
    var r := TrimEnd(t);
    assert r == [] ==> IsBlank(s) by {
      if r == [] {
        assert t[|r|..] == t;
        assert t == [];
        assert s[..|s| - |t|] == s;
      }
    }
    r
  }

  /** `trim` removes exactly a white-space prefix and a white-space suffix: what is left is the
      slice of `s` that starts after `LeadingBlanks(s)` characters. */
  lemma TrimIsSlice(s: string)
    ensures LeadingBlanks(s) + |Trim(s)| <= |s|
    ensures Trim(s) == s[LeadingBlanks(s)..LeadingBlanks(s) + |Trim(s)|]
    ensures IsBlank(s[..LeadingBlanks(s)]) && IsBlank(s[LeadingBlanks(s) + |Trim(s)|..])
  {
    var t := TrimStart(s);
    var r := Trim(s);
    var n := LeadingBlanks(s);
    assert t == s[n..];
    assert r == TrimEnd(t);
    assert r == s[n..n + |r|] by {
      assert r == t[..|r|];
    }
    assert s[n + |r|..] == t[|r|..];
  }

  /** The upper-case letters `toLowerCase` folds here: A to Z, the Latin-1 capitals (not the
      multiplication sign) and the Hungarian double-acute capitals. */
  predicate IsUpper(c: char) {
    ('A' <= c <= 'Z') || ('\U{C0}' <= c <= '\U{DE}' && c != '\U{D7}') || c == '\U{150}' || c == '\U{170}'
  }

  /** `toLowerCase` on one character: an upper-case letter becomes its small letter, anything
      else is kept. */
  function LowerChar(c: char): (d: char)
    ensures IsUpper(c) ==> d != c && !IsUpper(d)
    ensures !IsUpper(c) ==> d == c
  {
    if 'A' <= c <= 'Z' || ('\U{C0}' <= c <= '\U{DE}' && c != '\U{D7}') then (c as int + 32) as char
    else if c == '\U{150}' || c == '\U{170}' then (c as int + 1) as char
    else c
  }

  function ToLower(s: string): (r: string)
    ensures |r| == |s|
    ensures forall i :: 0 <= i < |s| ==> r[i] == LowerChar(s[i])
  {
    seq(|s|, i requires 0 <= i < |s| => LowerChar(s[i]))
  }

  /** `sub` occurs in `s` at position `i`. */
  ghost predicate OccursAt(s: string, sub: string, i: int) {
    0 <= i <= |s| - |sub| && s[i..i + |sub|] == sub
  }

  /** `String.prototype.includes`. */
  function Includes(s: string, sub: string): (b: bool)
    ensures b <==> exists i :: OccursAt(s, sub, i)
    decreases |s|
  {
    if |sub| > |s| then false
    else if s[..|sub|] == sub then
      assert OccursAt(s, sub, 0);
      true
    else
      var b := Includes(s[1..], sub);
      assert b ==> exists i :: OccursAt(s, sub, i) by {
        if b {
          var i :| OccursAt(s[1..], sub, i);
          assert s[1..][i..i + |sub|] == s[i + 1..i + 1 + |sub|];
          assert OccursAt(s, sub, i + 1);
        }
      }
      assert (exists i :: OccursAt(s, sub, i)) ==> b by {
        if exists i :: OccursAt(s, sub, i) {
          var i :| OccursAt(s, sub, i);
          assert i != 0;
          assert s[1..][i - 1..i - 1 + |sub|] == s[i..i + |sub|];
          assert OccursAt(s[1..], sub, i - 1);
        }
      }
      b
  }

  lemma {:induction false} IncludesEmpty(s: string)
    ensures Includes(s, "")
  {
    assert OccursAt(s, "", 0);
  }

  /** `String.prototype.startsWith`. */
  predicate StartsWith(s: string, prefix: string) {
    |prefix| <= |s| && s[..|prefix|] == prefix
  }

  /** The position of the first `c` in `s` at or after `from`, or -1. */
  function IndexFrom(s: string, c: char, from: nat): (i: int)
    requires from <= |s|
    ensures i == -1 || (from <= i < |s| && s[i] == c)
    ensures i == -1 ==> forall k :: from <= k < |s| ==> s[k] != c
    ensures i >= 0 ==> forall k :: from <= k < i ==> s[k] != c
    decreases |s| - from
  {
    if from == |s| then -1
    else if s[from] == c then from
    else IndexFrom(s, c, from + 1)
  }

  /** The position of the first `c` in `s`, or -1. */
  function IndexOfChar(s: string, c: char): (i: int)
    ensures -1 <= i < |s|
    ensures i == -1 ==> forall k :: 0 <= k < |s| ==> s[k] != c
    ensures i >= 0 ==> s[i] == c && forall k :: 0 <= k < i ==> s[k] != c
  {
    IndexFrom(s, c, 0)
  }

  /** `String.prototype.split` on one separator character: never empty. */
  function Split(s: string, sep: char): (parts: seq<string>)
    ensures |parts| >= 1
    decreases |s|
  {
    var i := IndexOfChar(s, sep);
    if i == -1 then [s] else [s[..i]] + Split(s[i + 1..], sep)
  }

  /** No part of a split contains the separator. */
  lemma {:induction false} SplitPartsAreFree(s: string, sep: char)
    ensures forall p :: p in Split(s, sep) ==> sep !in p
    decreases |s|
  {
    var i := IndexOfChar(s, sep);
    if i != -1 {
      SplitPartsAreFree(s[i + 1..], sep);
      assert sep !in s[..i] by {
        forall k | 0 <= k < i ensures s[..i][k] != sep {
          assert s[..i][k] == s[k];
        }
      }
    }
  }

  /** `Array.prototype.join` with a one-character separator. */
  function Join(parts: seq<string>, sep: char): string
  {
    if parts == [] then ""
    else if |parts| == 1 then parts[0]
    else parts[0] + [sep] + Join(parts[1..], sep)
  }

  lemma {:induction false} JoinCons(p: string, ps: seq<string>, sep: char)
    requires |ps| >= 1
    ensures Join([p] + ps, sep) == p + [sep] + Join(ps, sep)
  {
    assert ([p] + ps)[1..] == ps;
  }

  lemma {:induction false} SplitAtFirst(s: string, sep: char, i: int)
    requires i == IndexOfChar(s, sep) && i != -1
    ensures Split(s, sep) == [s[..i]] + Split(s[i + 1..], sep)
  {
  }

  /** A string is its text before position `i`, the character at `i`, and the text after. */
  lemma {:induction false} Around<T>(s: seq<T>, i: int)
    requires 0 <= i < |s|
    ensures s[..i] + [s[i]] + s[i + 1..] == s
  {
    assert s[..i] + s[i..] == s;
    assert s[i..] == [s[i]] + s[i + 1..];
  }

  /** Joining the parts of a split gives back the string. */
  lemma {:induction false} JoinSplit(s: string, sep: char)
    ensures Join(Split(s, sep), sep) == s
    decreases |s|
  {
    var i := IndexOfChar(s, sep);
    if i != -1 {
      var rest := s[i + 1..];
      calc {
        Join(Split(s, sep), sep);
      == { SplitAtFirst(s, sep, i); }
        Join([s[..i]] + Split(rest, sep), sep);
      == { JoinCons(s[..i], Split(rest, sep), sep); }
        s[..i] + [sep] + Join(Split(rest, sep), sep);
      == { JoinSplit(rest, sep); }
        s[..i] + [sep] + rest;
      == { Around(s, i); }
        s;
      }
    }
  }

  /** Splitting a join of separator-free parts gives back the parts. */
  lemma {:induction false} SplitJoin(parts: seq<string>, sep: char)
    requires |parts| >= 1
    requires forall p :: p in parts ==> sep !in p
    ensures Split(Join(parts, sep), sep) == parts
  {
    if |parts| > 1 {
      SplitJoin(parts[1..], sep);
      SplitAround(parts[0], Join(parts[1..], sep), sep);
    }
  }

  /** The first `c` of `s` is at `i` when `s[i]` is one and nothing before it is. */
  lemma {:induction false} IndexOfCharIs(s: string, c: char, i: int)
    requires 0 <= i < |s| && s[i] == c
    requires forall k :: 0 <= k < i ==> s[k] != c
    ensures IndexOfChar(s, c) == i
  {
    var j := IndexOfChar(s, c);
    assert j != -1 by {
      assert s[i] in s;
    }
  }

  /** Split at the first separator of `a + [sep] + b` when `a` has none. */
  lemma {:induction false} SplitAround(a: string, b: string, sep: char)
    requires sep !in a
    ensures Split(a + [sep] + b, sep) == [a] + Split(b, sep)
  {
    var s := a + [sep] + b;
    assert forall k :: 0 <= k < |a| ==> s[k] == a[k] && a[k] != sep;
    IndexOfCharIs(s, sep, |a|);
    calc {
      Split(s, sep);
    == { SplitAtFirst(s, sep, |a|); }
      [s[..|a|]] + Split(s[|a| + 1..], sep);
    == { assert s[..|a|] == a; assert s[|a| + 1..] == b; }
      [a] + Split(b, sep);
    }
  }

  /** A separator splits the parts of both sides apart. */
  lemma {:induction false} SplitConcat(a: string, b: string, sep: char)
    ensures Split(a + [sep] + b, sep) == Split(a, sep) + Split(b, sep)
    decreases |a|
  {
    var i := IndexOfChar(a, sep);
    if i == -1 {
      SplitAround(a, b, sep);
    } else {
      var s := a + [sep] + b;
      assert forall k :: 0 <= k <= i ==> s[k] == a[k];
      IndexOfCharIs(s, sep, i);
      calc {
        Split(s, sep);
      == { SplitAtFirst(s, sep, i); }
        [s[..i]] + Split(s[i + 1..], sep);
      == { assert s[..i] == a[..i]; assert s[i + 1..] == a[i + 1..] + [sep] + b; }
        [a[..i]] + Split(a[i + 1..] + [sep] + b, sep);
      == { SplitConcat(a[i + 1..], b, sep); }
        [a[..i]] + (Split(a[i + 1..], sep) + Split(b, sep));
      == { SplitAtFirst(a, sep, i); }
        Split(a, sep) + Split(b, sep);
      }
    }
  }

  /** The last part of a split (`split(sep).pop()`). */
  function LastPart(s: string, sep: char): string {
    var parts := Split(s, sep);
    parts[|parts| - 1]
  }

  lemma {:induction false} LastPartOfRest(s: string, sep: char, i: int)
    requires i == IndexOfChar(s, sep) && i != -1
    ensures LastPart(s, sep) == LastPart(s[i + 1..], sep)
  {
    var parts := Split(s, sep);
    assert parts == [s[..i]] + Split(s[i + 1..], sep);
  }

  /** The last part is a suffix of `s` without separator: all of `s` when it has none, and
      otherwise the text after its last separator. */
  lemma {:induction false} LastPartIsSuffix(s: string, sep: char)
    ensures |LastPart(s, sep)| <= |s|
    ensures s[|s| - |LastPart(s, sep)|..] == LastPart(s, sep)
    ensures sep !in LastPart(s, sep)
    ensures sep !in s ==> LastPart(s, sep) == s
    ensures sep in s ==> |LastPart(s, sep)| < |s| && s[|s| - |LastPart(s, sep)| - 1] == sep
    decreases |s|
  {
    var i := IndexOfChar(s, sep);
    var r := LastPart(s, sep);
    SplitPartsAreFree(s, sep);
    assert r in Split(s, sep);
    if i != -1 {
      var t := s[i + 1..];
      LastPartOfRest(s, sep, i);
      LastPartIsSuffix(t, sep);
      SuffixOfRest(s, i + 1, |r|);
      if sep in t {
        assert s[|s| - |r| - 1] == t[|t| - |r| - 1];
      } else {
        assert |s| - |r| - 1 == i;
      }
    }
  }

  /** A suffix of `s[j..]` is the suffix of `s` of the same length. */
  lemma {:induction false} SuffixOfRest(s: string, j: int, n: int)
    requires 0 <= j <= |s| && 0 <= n <= |s| - j
    ensures s[|s| - n..] == s[j..][|s| - j - n..]
  {
  }

  /** `Array.prototype.indexOf`: the first position of `x` in `parts`, or -1. */
  function IndexOf(parts: seq<string>, x: string): (i: int)
    ensures -1 <= i < |parts|
    ensures i == -1 <==> x !in parts
    ensures i >= 0 ==> parts[i] == x && forall k :: 0 <= k < i ==> parts[k] != x
  {
    if parts == [] then -1
    else if parts[0] == x then 0
    else
      var j := IndexOf(parts[1..], x);
      if j == -1 then -1 else j + 1
  }

  /** `Array.prototype.slice(start)`: a negative start counts from the end. */
  function SliceFrom<T>(s: seq<T>, start: int): (r: seq<T>)
    ensures 0 <= start <= |s| ==> r == s[start..]
    ensures -|s| <= start < 0 ==> r == s[|s| + start..]
  {
    if start >= |s| then []
    else if start >= 0 then s[start..]
    else if start >= -|s| then s[|s| + start..]
    else s
  }
}
