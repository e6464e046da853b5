/**
  A declarative account of what `parseKeys` does. A key string is cut into
  tokens: plain runs, closed directives `{...}`, and at most one unclosed
  `{...` at the very end. Such a tiling exists for every string and is
  unique, and the parser's output is the tokens classified one by one.
 */
module KeySyntax {
  import opened Strings
  import opened KeyParser

  /** A non-empty run with no `{` in it. */
  predicate PlainRun(t: string) {
    |t| > 0 && '{' !in t
  }

  /** `{`, then text without `}`, then `}`. */
  predicate ClosedDirective(t: string) {
    |t| >= 2 && t[0] == '{' && t[|t| - 1] == '}' && '}' !in t[1..|t| - 1]
  }

  /** A `{` never closed: no `}` anywhere in it. */
  predicate UnclosedTail(t: string) {
    |t| >= 1 && t[0] == '{' && '}' !in t
  }

  function Concat(ts: seq<string>): string {
    if |ts| == 0 then [] else ts[0] + Concat(ts[1..])
  }

  /**
    `ts` tiles `s`: its tokens, in order and without gaps or overlaps, spell
    `s`; an unclosed tail can only come last; and no two plain runs touch
    (a plain run always extends to the next `{` or to the end).
   */
  ghost predicate IsTiling(s: string, ts: seq<string>) {
    && Concat(ts) == s
    && (forall k :: 0 <= k < |ts| ==>
          PlainRun(ts[k]) || ClosedDirective(ts[k]) || (UnclosedTail(ts[k]) && k == |ts| - 1))
    && (forall j, k :: 0 <= j < k < |ts| && k == j + 1 ==> !(PlainRun(ts[j]) && PlainRun(ts[k])))
  }

  /**
    The action one token stands for: what `interpret` makes of the text
    between the braces of a `{...}`, the text itself otherwise.
   */
  function Classify(t: string, interpret: string -> Action): Action {
    if ClosedDirective(t) then interpret(t[1..|t| - 1]) else Text(t)
  }

  function ClassifyAll(ts: seq<string>, interpret: string -> Action): (r: seq<Action>)
    ensures |r| == |ts|
  {
    if |ts| == 0 then [] else [Classify(ts[0], interpret)] + ClassifyAll(ts[1..], interpret)
  }

  /** The tokens of `s[i..]`, cut the way the scanner cuts them. */
  function Tokens(s: string, i: nat): seq<string>
    requires i <= |s|
    decreases |s| - i
  {
    if i == |s| then []
    else if s[i] == '{' then
      var end := IndexOf(s, '}', i);
      if end == -1 then [s[i..]] else [s[i..end + 1]] + Tokens(s, end + 1)
    else
      var next := IndexOf(s, '{', i);
      var end := if next == -1 then |s| else next;
      [s[i..end]] + Tokens(s, end)
  }

  /** A `{` with a `}` ahead: the token runs to that `}`. */
  lemma TokensBrace(s: string, i: nat, end: int)
    requires i < |s| && s[i] == '{' && end == IndexOf(s, '}', i) && end != -1
    ensures Tokens(s, i) == [s[i..end + 1]] + Tokens(s, end + 1)
  {
  }

  /** A `{` with no `}` ahead: the rest is one token. */
  lemma TokensTail(s: string, i: nat)
    requires i < |s| && s[i] == '{' && IndexOf(s, '}', i) == -1
    ensures Tokens(s, i) == [s[i..]]
  {
  }

  /** Anything else: the token runs to the next `{` or the end. */
  lemma TokensRun(s: string, i: nat, end: nat)
    requires i < |s| && s[i] != '{'
    requires end == (if IndexOf(s, '{', i) == -1 then |s| else IndexOf(s, '{', i))
    ensures Tokens(s, i) == [s[i..end]] + Tokens(s, end)
  {
  }

  /** The scanner's cut is a tiling. */
  lemma {:induction false} TokensTile(s: string, i: nat)
    requires i <= |s|
    ensures IsTiling(s[i..], Tokens(s, i))
    decreases |s| - i, 1
  {
    if i == |s| {
      assert Tokens(s, i) == [];
    } else if s[i] == '{' {
      var end := IndexOf(s, '}', i);
      if end == -1 {
        TokensTileUnclosed(s, i);
      } else {
        TokensTile(s, end + 1);
        TokensTileClosed(s, i, end);
      }
    } else {
      var next := IndexOf(s, '{', i);
      var end := if next == -1 then |s| else next;
      TokensTile(s, end);
      TokensTileRun(s, i, end);
    }
  }

  lemma TokensTileUnclosed(s: string, i: nat)
    requires i < |s| && s[i] == '{' && IndexOf(s, '}', i) == -1
    ensures IsTiling(s[i..], Tokens(s, i))
  {
    TokensTail(s, i);
    TailToken(s, i);
    SingleTiling(s[i..]);
  }

  /** An unclosed tail on its own tiles itself. */
  lemma SingleTiling(t: string)
    requires UnclosedTail(t)
    ensures IsTiling(t, [t])
  {
    assert Concat([t]) == t + Concat([]);
  }

  lemma TokensTileClosed(s: string, i: nat, end: nat)
    requires i < end < |s| && s[i] == '{' && end == IndexOf(s, '}', i)
    requires IsTiling(s[end + 1..], Tokens(s, end + 1))
    ensures IsTiling(s[i..], Tokens(s, i))
  {
    TokensBrace(s, i, end);
    ClosedStep(s, i, end, Tokens(s, end + 1), Tokens(s, i));
  }

  /** A closed directive in front of a tiling of what follows it. */
  lemma ClosedStep(s: string, i: nat, end: nat, rest: seq<string>, ts: seq<string>)
    requires i < end < |s| && s[i] == '{' && end == IndexOf(s, '}', i)
    requires IsTiling(s[end + 1..], rest) && ts == [s[i..end + 1]] + rest
    ensures IsTiling(s[i..], ts)
  {
    BraceToken(s, i, end);
    ConsClosed(s, i, end + 1, rest);
  }

  lemma ConsClosed(s: string, i: nat, j: nat, rest: seq<string>)
    requires i < j <= |s| && ClosedDirective(s[i..j]) && IsTiling(s[j..], rest)
    ensures IsTiling(s[i..], [s[i..j]] + rest)
  {
    assert s[i..j][0] == '{';
    ConsTiling(s, i, j, rest);
  }

  lemma TokensTileRun(s: string, i: nat, end: nat)
    requires i < end <= |s| && s[i] != '{'
    requires end == (if IndexOf(s, '{', i) == -1 then |s| else IndexOf(s, '{', i))
    requires IsTiling(s[end..], Tokens(s, end))
    ensures IsTiling(s[i..], Tokens(s, i))
  {
    TokensRun(s, i, end);
    RunToken(s, i, end);
    NextStartsWithBrace(s, end, Tokens(s, end));
    ConsTiling(s, i, end, Tokens(s, end));
  }

  lemma BraceToken(s: string, i: nat, end: nat)
    requires i < end < |s| && s[i] == '{' && s[end] == '}'
    requires forall k :: i <= k < end ==> s[k] != '}'
    ensures ClosedDirective(s[i..end + 1])
  {
    var mid := s[i..end + 1][1..end - i];
    forall k | 0 <= k < |mid| ensures mid[k] != '}' {
      assert mid[k] == s[i + 1 + k];
    }
  }

  lemma TailToken(s: string, i: nat)
    requires i < |s| && s[i] == '{'
    requires forall k :: i <= k < |s| ==> s[k] != '}'
    ensures UnclosedTail(s[i..])
  {
    var t := s[i..];
    forall k | 0 <= k < |t| ensures t[k] != '}' {
      assert t[k] == s[i + k];
    }
  }

  lemma RunToken(s: string, i: nat, end: nat)
    requires i < end <= |s|
    requires forall k :: i <= k < end ==> s[k] != '{'
    ensures PlainRun(s[i..end])
  {
    var t := s[i..end];
    forall k | 0 <= k < |t| ensures t[k] != '{' {
      assert t[k] == s[i + k];
    }
  }

  lemma NextStartsWithBrace(s: string, end: nat, rest: seq<string>)
    requires end <= |s| && IsTiling(s[end..], rest)
    requires end < |s| ==> s[end] == '{'
    ensures |rest| > 0 ==> |rest[0]| > 0 && rest[0][0] == '{'
  {
    if |rest| > 0 {
      TilingHead(s[end..], rest);
    }
  }

  /** Every token is non-empty, so a tiling's first token is a prefix of what it tiles. */
  lemma TilingHead(s: string, ts: seq<string>)
    requires IsTiling(s, ts) && |ts| > 0
    ensures |ts[0]| > 0 && |ts[0]| <= |s| && s[..|ts[0]|] == ts[0]
    ensures s[0] == ts[0][0]
    ensures IsTiling(s[|ts[0]|..], ts[1..])
  {
    assert Concat(ts) == ts[0] + Concat(ts[1..]);
    assert s[|ts[0]|..] == Concat(ts[1..]);
    var tail := ts[1..];
    assert forall k :: 0 <= k < |tail| ==> tail[k] == ts[k + 1];
  }

  /** Putting a token in front of a tiling of the rest tiles the whole. */
  lemma ConsTiling(s: string, i: nat, j: nat, rest: seq<string>)
    requires i < j <= |s|
    requires IsTiling(s[j..], rest)
    requires PlainRun(s[i..j]) || ClosedDirective(s[i..j]) || (UnclosedTail(s[i..j]) && |rest| == 0)
    requires PlainRun(s[i..j]) && |rest| > 0 ==> |rest[0]| > 0 && rest[0][0] == '{'
    ensures IsTiling(s[i..], [s[i..j]] + rest)
  {
    var ts := [s[i..j]] + rest;
    assert ts[1..] == rest;
    assert Concat(ts) == s[i..j] + s[j..];
    assert s[i..j] + s[j..] == s[i..];
    if |rest| > 0 && PlainRun(s[i..j]) {
      assert '{' in rest[0];
    }
  }

  /** The tokens of the empty rest are none: tokens are non-empty. */
  lemma EmptyTiling(ts: seq<string>)
    requires IsTiling([], ts)
    ensures ts == []
  {
    if |ts| > 0 {
      TilingHead([], ts);
    }
  }

  /** A tiling of a rest that starts with `{` and has no `}` is that whole rest. */
  lemma FirstTokenUnclosed(s: string, i: nat, ts: seq<string>)
    requires i < |s| && s[i] == '{' && IsTiling(s[i..], ts) && |ts| > 0
    requires forall k :: i <= k < |s| ==> s[k] != '}'
    ensures ts == [s[i..]]
  {
    TilingHead(s[i..], ts);
    var t := ts[0];
    var n := |t|;
    assert t[0] == '{';
    assert UnclosedTail(t) && |ts| == 1;
    assert Concat(ts[1..]) == [];
    assert Concat(ts) == t;
  }

  /** With a `}` ahead, the first token of a rest starting with `{` runs to the first `}`. */
  lemma FirstTokenClosed(s: string, i: nat, end: nat, ts: seq<string>)
    requires i < end < |s| && s[i] == '{' && s[end] == '}' && IsTiling(s[i..], ts) && |ts| > 0
    requires forall k :: i <= k < end ==> s[k] != '}'
    ensures ts[0] == s[i..end + 1]
  {
    TilingHead(s[i..], ts);
    var t := ts[0];
    var n := |t|;
    assert t[0] == '{';
    assert ClosedDirective(t);
    assert t[n - 1] == s[i + n - 1];
    var mid := t[1..n - 1];
    assert forall k :: 0 <= k < |mid| ==> mid[k] == s[i + 1 + k];
    assert i + n - 1 == end;
  }

  /** The first token of a rest not starting with `{` runs to the next `{` or the end. */
  lemma FirstTokenRun(s: string, i: nat, end: nat, ts: seq<string>)
    requires i < end <= |s| && s[i] != '{' && IsTiling(s[i..], ts) && |ts| > 0
    requires forall k :: i <= k < end ==> s[k] != '{'
    requires end < |s| ==> s[end] == '{'
    ensures ts[0] == s[i..end]
  {
    TilingHead(s[i..], ts);
    var t := ts[0];
    var n := |t|;
    assert t[0] != '{';
    assert PlainRun(t);
    if n < end - i {
      TilingHead(s[i..][n..], ts[1..]);
    }
  }

  /** There is only one tiling: any tiling of `s[i..]` is the scanner's. */
  lemma {:induction false} TilingUnique(s: string, i: nat, ts: seq<string>)
    requires i <= |s| && IsTiling(s[i..], ts)
    ensures ts == Tokens(s, i)
    decreases |s| - i, 3
  {
    if i == |s| {
      EmptyTiling(ts);
    } else {
      assert |ts| > 0;
      if s[i] == '{' {
        TilingUniqueBrace(s, i, ts);
      } else {
        TilingUniqueRun(s, i, ts);
      }
    }
  }

  lemma {:induction false} TilingUniqueBrace(s: string, i: nat, ts: seq<string>)
    requires i < |s| && s[i] == '{' && IsTiling(s[i..], ts) && |ts| > 0
    ensures ts == Tokens(s, i)
    decreases |s| - i, 2
  {
    var end := IndexOf(s, '}', i);
    if end == -1 {
      TilingUniqueUnclosed(s, i, ts);
    } else {
      TilingUniqueClosed(s, i, end, ts);
    }
  }

  lemma {:induction false} TilingUniqueClosed(s: string, i: nat, end: nat, ts: seq<string>)
    requires i < end < |s| && s[i] == '{' && IsTiling(s[i..], ts) && |ts| > 0
    requires end == IndexOf(s, '}', i)
    ensures ts == Tokens(s, i)
    decreases |s| - i, 1
  {
    FirstTokenClosed(s, i, end, ts);
    TilingRest(s, i, end + 1, ts);
    TilingUniqueAfterClosed(s, i, end, ts);
  }

  lemma {:induction false} TilingUniqueAfterClosed(s: string, i: nat, end: nat, ts: seq<string>)
    requires i < end < |s| && s[i] == '{' && end == IndexOf(s, '}', i)
    requires |ts| > 0 && ts[0] == s[i..end + 1] && IsTiling(s[end + 1..], ts[1..])
    ensures ts == Tokens(s, i)
    decreases |s| - i, 0
  {
    TilingUnique(s, end + 1, ts[1..]);
    ClosedHead(s, i, end, ts);
  }

  /** A token list that starts with the scanner's first token and continues with its other tokens is its token list. */
  lemma ClosedHead(s: string, i: nat, end: nat, ts: seq<string>)
    requires i < end < |s| && s[i] == '{' && end == IndexOf(s, '}', i)
    requires |ts| > 0 && ts[0] == s[i..end + 1] && ts[1..] == Tokens(s, end + 1)
    ensures ts == Tokens(s, i)
  {
    TokensBrace(s, i, end);
    SplitHead(ts, s[i..end + 1], Tokens(s, end + 1));
  }

  lemma SplitHead(ts: seq<string>, t: string, rest: seq<string>)
    requires |ts| > 0 && ts[0] == t && ts[1..] == rest
    ensures ts == [t] + rest
  {
    assert ts == [ts[0]] + ts[1..];
  }

  lemma TilingUniqueUnclosed(s: string, i: nat, ts: seq<string>)
    requires i < |s| && s[i] == '{' && IsTiling(s[i..], ts) && |ts| > 0
    requires IndexOf(s, '}', i) == -1
    ensures ts == Tokens(s, i)
  {
    FirstTokenUnclosed(s, i, ts);
    TokensTail(s, i);
  }

  lemma {:induction false} TilingUniqueRun(s: string, i: nat, ts: seq<string>)
    requires i < |s| && s[i] != '{' && IsTiling(s[i..], ts) && |ts| > 0
    ensures ts == Tokens(s, i)
    decreases |s| - i, 0
  {
    var next := IndexOf(s, '{', i);
    var end := if next == -1 then |s| else next;
    FirstTokenRun(s, i, end, ts);
    TilingRest(s, i, end, ts);
    TilingUnique(s, end, ts[1..]);
    TokensRun(s, i, end);
    assert ts == [ts[0]] + ts[1..];
  }

  /** Once the first token is known, the other tokens tile what follows it. */
  lemma TilingRest(s: string, i: nat, j: nat, ts: seq<string>)
    requires i < j <= |s| && IsTiling(s[i..], ts) && |ts| > 0 && ts[0] == s[i..j]
    ensures IsTiling(s[j..], ts[1..])
  {
    TilingHead(s[i..], ts);
    assert s[i..][j - i..] == s[j..];
  }

  lemma ClassifyCons(t: string, rest: seq<string>, f: string -> Action)
    ensures ClassifyAll([t] + rest, f) == [Classify(t, f)] + ClassifyAll(rest, f)
  {
    assert ([t] + rest)[1..] == rest;
  }

  /** A closed directive token stands for the directive of the text between its braces. */
  lemma DirectiveToken(s: string, i: nat, end: nat, f: string -> Action)
    requires i < end < |s| && s[i] == '{' && s[end] == '}'
    requires forall k :: i <= k < end ==> s[k] != '}'
    ensures Classify(s[i..end + 1], f) == f(s[i + 1..end])
  {
    BraceToken(s, i, end);
    var t := s[i..end + 1];
    var mid := t[1..|t| - 1];
    assert forall k :: 0 <= k < |mid| ==> mid[k] == s[i + 1 + k];
    assert mid == s[i + 1..end];
  }

  /** The scanner's output is its tokens, classified one by one. */
  lemma {:induction false} ScanClassifies(s: string, i: nat, f: string -> Action)
    requires i <= |s|
    ensures Scan(s, i, f) == ClassifyAll(Tokens(s, i), f)
    decreases |s| - i, 1
  {
    if i == |s| {
    } else if s[i] == '{' {
      var end := IndexOf(s, '}', i);
      if end == -1 {
        var t := s[i..];
        assert t[|t| - 1] == s[|s| - 1] != '}';
        assert Tokens(s, i) == [t];
        ClassifyCons(t, [], f);
      } else {
        ClassifiesBrace(s, i, end, f);
      }
    } else {
      ClassifiesRun(s, i, f);
    }
  }

  lemma {:induction false} ClassifiesBrace(s: string, i: nat, end: nat, f: string -> Action)
    requires i < |s| && s[i] == '{' && end == IndexOf(s, '}', i) && end != -1
    ensures Scan(s, i, f) == ClassifyAll(Tokens(s, i), f)
    decreases |s| - i, 0
  {
    ScanClassifies(s, end + 1, f);
    ClassifiesAfterClosed(s, i, end, f);
  }

  /** Once the rest after a closed directive is classified, so is the whole. */
  lemma ClassifiesAfterClosed(s: string, i: nat, end: nat, f: string -> Action)
    requires i < |s| && s[i] == '{' && end == IndexOf(s, '}', i) && end != -1
    requires Scan(s, end + 1, f) == ClassifyAll(Tokens(s, end + 1), f)
    ensures Scan(s, i, f) == ClassifyAll(Tokens(s, i), f)
  {
    var t := s[i..end + 1];
    var rest := Tokens(s, end + 1);
    TokensBrace(s, i, end);
    DirectiveToken(s, i, end, f);
    ClassifyCons(t, rest, f);
    ScanBrace(s, i, end, f);
  }

  lemma ScanBrace(s: string, i: nat, end: nat, f: string -> Action)
    requires i < |s| && s[i] == '{' && end == IndexOf(s, '}', i) && end != -1
    ensures Scan(s, i, f) == [f(s[i + 1..end])] + Scan(s, end + 1, f)
  {
  }

  lemma {:induction false} ClassifiesRun(s: string, i: nat, f: string -> Action)
    requires i < |s| && s[i] != '{'
    ensures Scan(s, i, f) == ClassifyAll(Tokens(s, i), f)
    decreases |s| - i, 0
  {
    var next := IndexOf(s, '{', i);
    var end := if next == -1 then |s| else next;
    var t := s[i..end];
    assert t[0] != '{';
    assert Classify(t, f) == Text(t);
    ScanClassifies(s, end, f);
    assert Scan(s, i, f) == [Text(t)] + Scan(s, end, f);
    TokensRun(s, i, end);
    ClassifyCons(t, Tokens(s, end), f);
  }

  /**
    The meaning of `parseKeys`: for the one and only tiling of the input,
    the actions are its tokens classified in order, one action per token.
   */
  lemma ParseKeysMeaning(s: string, ts: seq<string>)
    requires IsTiling(s, ts)
    ensures ParseKeys(s) == ClassifyAll(ts, Directive)
    ensures |ParseKeys(s)| == |ts|
  {
    assert s[0..] == s;
    TilingUnique(s, 0, ts);
    ScanClassifies(s, 0, Directive);
  }

  /** Every key string has a tiling. */
  lemma TilingExists(s: string)
    ensures IsTiling(s, Tokens(s, 0))
  {
    assert s[0..] == s;
    TokensTile(s, 0);
  }
}
