/**
  The handful of ECMAScript string primitives the two scripts rely on:
  `indexOf` for one character, `includes`, `startsWith`, `trim`, `split`
  on one character and `Array.prototype.join`. Strings are sequences of
  characters (UTF-16 code units and code points are not distinguished).
 */
module Strings {

  /** ECMAScript white space and line terminators: what `trim` and `parseInt` skip. */
  predicate IsWhite(c: char) {
    || c == ' ' || c == '\t' || c == '\n' || c == '\r'
    || c == '\U{000B}' || c == '\U{000C}' || c == '\U{00A0}' || c == '\U{1680}'
    || ('\U{2000}' <= c <= '\U{200A}')
    || c == '\U{2028}' || c == '\U{2029}' || c == '\U{202F}' || c == '\U{205F}'
    || c == '\U{3000}' || c == '\U{FEFF}'
  }

  /** `s.indexOf(c, from)`: the first position at or after `from` holding `c`, or -1. */
  function IndexOf(s: string, c: char, from: nat): (r: int)
    requires from <= |s|
    ensures r == -1 || from <= r < |s|
    ensures r == -1 ==> forall k :: from <= k < |s| ==> s[k] != c
    ensures r != -1 ==> s[r] == c && forall k :: from <= k < r ==> s[k] != c
    decreases |s| - from
  {
    if from == |s| then -1
    else if s[from] == c then from
    else IndexOf(s, c, from + 1)
  }

  /** The first `c` at or after `from` is at `k`. */
  lemma IndexOfIs(s: string, c: char, from: nat, k: nat)
    requires from <= k < |s| && s[k] == c
    requires forall j :: from <= j < k ==> s[j] != c
    ensures IndexOf(s, c, from) == k
  {
  }

  /** There is no `c` at or after `from`. */
  lemma IndexOfNone(s: string, c: char, from: nat)
    requires from <= |s|
    requires forall j :: from <= j < |s| ==> s[j] != c
    ensures IndexOf(s, c, from) == -1
  {
  }

  /** `sub` sits in `s` starting at position `k`. */
  predicate OccursAt(s: string, sub: string, k: int) {
    0 <= k && k + |sub| <= |s| && s[k..k + |sub|] == sub
  }

  /** `s.includes(sub)` restricted to positions at or after `from`. */
  function IncludesFrom(s: string, sub: string, from: nat): (r: bool)
    ensures r <==> exists k :: from <= k && OccursAt(s, sub, k)
    decreases |s| - from
  {
    if from + |sub| > |s| then false
    else if s[from..from + |sub|] == sub then assert OccursAt(s, sub, from); true
    else IncludesFrom(s, sub, from + 1)
  }

  /** `s.includes(sub)`: `sub` occurs somewhere in `s`. */
  function Includes(s: string, sub: string): (r: bool)
    ensures r <==> exists k :: OccursAt(s, sub, k)
  {
    IncludesFrom(s, sub, 0)
  }

  /** `s.startsWith(p)` */
  predicate StartsWith(s: string, p: string) {
    |p| <= |s| && s[..|p|] == p
  }

  /** `r` is `s` with a white prefix dropped, and starts with no white character. */
  predicate StripsFront(s: string, r: string) {
    && |r| <= |s| && r == s[|s| - |r|..]
    && (forall k :: 0 <= k < |s| - |r| ==> IsWhite(s[k]))
    && (|r| > 0 ==> !IsWhite(r[0]))
  }

  /** `r` is `s` with a white suffix dropped, and ends with no white character. */
  predicate StripsBack(s: string, r: string) {
    && |r| <= |s| && r == s[..|r|]
    && (forall k :: |r| <= k < |s| ==> IsWhite(s[k]))
    && (|r| > 0 ==> !IsWhite(r[|r| - 1]))
  }

  /** `s.trimStart()`: drops the leading white space, and nothing else. */
  function TrimStart(s: string): (r: string)
    ensures StripsFront(s, r)
  {
    if |s| > 0 && IsWhite(s[0]) then TrimStart(s[1..]) else s
  }

  /** `s.trimEnd()`: drops the trailing white space, and nothing else. */
  function TrimEnd(s: string): (r: string)
    ensures StripsBack(s, r)
  {
    if |s| > 0 && IsWhite(s[|s| - 1]) then TrimEnd(s[..|s| - 1]) else s
  }

  /**
    `r` is what is left of `s` once its first `a` characters and everything
    after `a + |r|` are dropped, all of them white, and `r` has no white
    character at either end.
   */
  predicate TrimmedAt(s: string, a: int, r: string) {
    && 0 <= a && a + |r| <= |s|
    && (forall k :: 0 <= k < |r| ==> r[k] == s[a + k])
    && (forall k :: 0 <= k < a ==> IsWhite(s[k]))
    && (forall k :: a + |r| <= k < |s| ==> IsWhite(s[k]))
    && (|r| > 0 ==> !IsWhite(r[0]) && !IsWhite(r[|r| - 1]))
  }

  /** `s.trim()` */
  function Trim(s: string): string {
    TrimEnd(TrimStart(s))
  }

  /** Trimming leaves the slice of `s` between its white ends, with no white character at either end. */
  lemma TrimMeaning(s: string)
    ensures TrimmedAt(s, |s| - |TrimStart(s)|, Trim(s))
  {
    var t := TrimStart(s);
    var r := TrimEnd(t);
    assert Trim(s) == r;
    TrimShape(s, t, r);
  }

  /** The white-stripped front's white-stripped back is a slice of `s` between white ends. */
  lemma TrimShape(s: string, t: string, r: string)
    requires StripsFront(s, t) && StripsBack(t, r)
    ensures TrimmedAt(s, |s| - |t|, r)
  {
    TrimSlice(s, t, r);
    TrimEnds(t, r);
  }

  /** A white-free front survives dropping a white suffix. */
  lemma TrimEnds(t: string, r: string)
    requires |r| <= |t| && r == t[..|r|]
    requires |t| > 0 ==> !IsWhite(t[0])
    requires |r| > 0 ==> !IsWhite(r[|r| - 1])
    ensures |r| > 0 ==> !IsWhite(r[0]) && !IsWhite(r[|r| - 1])
  {
    assert |r| > 0 ==> r[0] == t[0];
  }

  /** Dropping a white suffix of a white-stripped suffix of `s` leaves a slice of `s`. */
  lemma TrimSlice(s: string, t: string, r: string)
    requires |t| <= |s| && t == s[|s| - |t|..]
    requires forall k :: 0 <= k < |s| - |t| ==> IsWhite(s[k])
    requires |r| <= |t| && r == t[..|r|]
    requires forall k :: |r| <= k < |t| ==> IsWhite(t[k])
    ensures var a := |s| - |t|;
      && a + |r| <= |s| && r == s[a..a + |r|]
      && (forall k :: 0 <= k < a ==> IsWhite(s[k]))
      && (forall k :: a + |r| <= k < |s| ==> IsWhite(s[k]))
  {
    var a := |s| - |t|;
    forall k | a + |r| <= k < |s| ensures IsWhite(s[k]) {
      assert s[k] == t[k - a];
    }
  }

  /** Trimming a trimmed string changes nothing. */
  lemma TrimIdempotent(s: string)
    ensures Trim(Trim(s)) == Trim(s)
  {
    var t := Trim(s);
    TrimMeaning(s);
    if |t| > 0 {
      assert TrimStart(t) == t;
      assert TrimEnd(t) == t;
    }
  }

  /** Trimming never introduces a character. */
  lemma TrimKeepsOut(s: string, c: char)
    requires c !in s
    ensures c !in Trim(s)
  {
    var a := |s| - |TrimStart(s)|;
    var t := Trim(s);
    TrimMeaning(s);
    forall k | 0 <= k < |t| ensures t[k] != c {
      assert t[k] == s[a + k];
    }
  }

  /** `parts.join(sep)` (the empty array joins to the empty string). */
  function Join(parts: seq<string>, sep: char): string {
    if |parts| == 0 then []
    else if |parts| == 1 then parts[0]
    else parts[0] + [sep] + Join(parts[1..], sep)
  }

  /** `s.split(sep)` for a one-character separator: the pieces between consecutive separators. */
  function Split(s: string, sep: char): (parts: seq<string>)
    ensures |parts| >= 1
    ensures forall k :: 0 <= k < |parts| ==> sep !in parts[k]
    ensures Join(parts, sep) == s
    decreases |s|
  {
    var k := IndexOf(s, sep, 0);
    if k == -1 then [s]
    else
      var rest := Split(s[k + 1..], sep);
      assert ([s[..k]] + rest)[1..] == rest;
      assert s == s[..k] + [sep] + s[k + 1..];
      [s[..k]] + rest
  }

  /** The first separator ends the first piece. */
  lemma SplitCons(p: string, tail: string, sep: char)
    requires sep !in p
    ensures Split(p + [sep] + tail, sep) == [p] + Split(tail, sep)
  {
    var s := p + [sep] + tail;
    assert s[|p|] == sep;
    assert forall j :: 0 <= j < |p| ==> s[j] == p[j];
    assert IndexOf(s, sep, 0) == |p|;
    assert s[..|p|] == p;
    assert s[|p| + 1..] == tail;
  }

  /** Splitting a join of separator-free pieces gives the pieces back. */
  lemma {:induction false} SplitJoin(parts: seq<string>, sep: char)
    requires |parts| >= 1
    requires forall k :: 0 <= k < |parts| ==> sep !in parts[k]
    ensures Split(Join(parts, sep), sep) == parts
    decreases |parts|
  {
    if |parts| == 1 {
      assert IndexOf(parts[0], sep, 0) == -1;
    } else {
      var p := parts[0];
      assert Join(parts, sep) == p + [sep] + Join(parts[1..], sep);
      SplitCons(p, Join(parts[1..], sep), sep);
      SplitJoin(parts[1..], sep);
      assert parts == [p] + parts[1..];
    }
  }
}
