/**
  Worked inputs of the key notation, each checked against the parser. The
  `Spell` lemmas state how a literal input is laid out (where its braces
  are, which characters it lacks); each is proved on its own, away from the
  parser's definitions, which keeps the example proofs small.
 */
module KeyParserExamples {
  import opened Strings
  import opened JsNumber
  import opened KeyMap
  import opened KeyParser

  /** A string that is one closed directive scans to that directive's action. */
  lemma ScanWrapped(inner: string, f: string -> Action)
    requires '}' !in inner
    ensures Scan("{" + inner + "}", 0, f) == [f(inner)]
  {
    var s := "{" + inner + "}";
    assert forall k :: 1 <= k < |s| - 1 ==> s[k] == inner[k - 1];
    assert forall k :: 0 <= k < |s| - 1 ==> s[k] != '}';
    assert s[|s| - 1] == '}';
    assert IndexOf(s, '}', 0) == |s| - 1;
    assert s[1..|s| - 1] == inner;
    assert Scan(s, |s|, f) == [];
  }

  lemma ParseWrapped(inner: string)
    requires '}' !in inner
    ensures ParseKeys("{" + inner + "}") == [Directive(inner)]
  {
    ScanWrapped(inner, Directive);
  }

  /** Plain text followed by one closed directive scans to a text action and the directive. */
  lemma ScanTextThenWrapped(text: string, inner: string, f: string -> Action)
    requires |text| > 0 && '{' !in text && '}' !in inner
    ensures Scan(text + "{" + inner + "}", 0, f) == [Text(text), f(inner)]
  {
    var s := text + "{" + inner + "}";
    var n := |text|;
    assert forall k :: 0 <= k < n ==> s[k] == text[k];
    assert s[n] == '{';
    assert IndexOf(s, '{', 0) == n;
    assert forall k :: n + 1 <= k < |s| - 1 ==> s[k] == inner[k - n - 1];
    assert forall k :: n <= k < |s| - 1 ==> s[k] != '}';
    assert s[|s| - 1] == '}';
    assert IndexOf(s, '}', n) == |s| - 1;
    assert s[0..n] == text && s[n + 1..|s| - 1] == inner;
    assert Scan(s, |s|, f) == [];
    assert Scan(s, n, f) == [f(inner)];
  }

  lemma ParseTextThenWrapped(text: string, inner: string)
    requires |text| > 0 && '{' !in text && '}' !in inner
    ensures ParseKeys(text + "{" + inner + "}") == [Text(text), Directive(inner)]
  {
    ScanTextThenWrapped(text, inner, Directive);
  }

  /** Where the braces of `text{rest` are, when only the one `{` is in it. */
  lemma UnclosedLayout(text: string, rest: string)
    requires |text| > 0 && '{' !in text && '}' !in rest
    ensures var s := text + "{" + rest;
      && IndexOf(s, '{', 0) == |text| && IndexOf(s, '}', |text|) == -1
      && s[0..|text|] == text && s[|text|..] == "{" + rest
  {
    var s := text + "{" + rest;
    var n := |text|;
    assert s[0..n] == text && s[n..] == "{" + rest;
    forall k | 0 <= k < n ensures s[k] != '{' {
      assert s[k] == text[k];
    }
    IndexOfIs(s, '{', 0, n);
    forall k | n <= k < |s| ensures s[k] != '}' {
      if k > n {
        assert s[k] == rest[k - n - 1];
      }
    }
    IndexOfNone(s, '}', n);
  }

  /** A `{` never closed makes the rest of the input one text action, brace included. */
  lemma ScanTextThenUnclosed(text: string, rest: string, f: string -> Action)
    requires |text| > 0 && '{' !in text && '}' !in rest
    ensures Scan(text + "{" + rest, 0, f) == [Text(text), Text("{" + rest)]
  {
    var s := text + "{" + rest;
    UnclosedLayout(text, rest);
    assert Scan(s, |text|, f) == [Text("{" + rest)];
  }

  lemma ParseTextThenUnclosed(text: string, rest: string)
    requires |text| > 0 && '{' !in text && '}' !in rest
    ensures ParseKeys(text + "{" + rest) == [Text(text), Text("{" + rest)]
  {
    ScanTextThenUnclosed(text, rest, Directive);
  }

  /** A directive that starts with `Delay:` is a delay of what the suffix reads as. */
  lemma DelayDirective(suffix: string)
    ensures Directive(DelayPrefix + suffix) == Delay(DelayMs(suffix))
  {
    var inner := DelayPrefix + suffix;
    assert inner[..|DelayPrefix|] == DelayPrefix;
    assert inner[|DelayPrefix|..] == suffix;
  }

  lemma EmptyInput()
    ensures ParseKeys("") == []
  {
  }

  lemma SpellRootEnter()
    ensures "root{Enter}" == "root" + "{" + "Enter" + "}"
    ensures '{' !in "root" && '}' !in "Enter" && '+' !in "Enter"
    ensures !StartsWith("Enter", DelayPrefix)
  {
  }

  lemma TextThenKey()
    ensures ParseKeys("root{Enter}") == [Text("root"), Key("Enter")]
  {
    SpellRootEnter();
    ParseTextThenWrapped("root", "Enter");
    ResolveKeyName("Enter");
  }

  lemma SpellEsc()
    ensures "{Esc}" == "{" + "Esc" + "}" && '}' !in "Esc" && '+' !in "Esc"
    ensures !StartsWith("Esc", DelayPrefix)
  {
  }

  lemma AliasKey()
    ensures ParseKeys("{Esc}") == [Key("Escape")]
  {
    SpellEsc();
    ParseWrapped("Esc");
    CommonAliases();
  }

  lemma XyzIsNoKeyName()
    ensures "Xyz" !in EditingKeys && "Xyz" !in PagingKeys && "Xyz" !in ArrowKeys
    ensures "Xyz" !in LowFunctionKeys && "Xyz" !in HighFunctionKeys
    ensures "Xyz" !in ModifierKeys && "Xyz" !in LockKeys
  {
  }

  lemma XyzIsNotRenamed()
    ensures "Xyz" !in Renames
  {
  }

  lemma SpellXyz()
    ensures "{Xyz}" == "{" + "Xyz" + "}" && '}' !in "Xyz" && '+' !in "Xyz"
    ensures !StartsWith("Xyz", DelayPrefix)
  {
  }

  /** A name outside the table is handed to the driver as written. */
  lemma UnlistedKeyPassesThrough()
    ensures ParseKeys("{Xyz}") == [Key("Xyz")]
  {
    SpellXyz();
    ParseWrapped("Xyz");
    XyzIsNoKeyName();
    XyzIsNotRenamed();
    UnlistedPassesThrough("Xyz");
  }

  lemma SpellLowerEnter()
    ensures "{enter}" == "{" + "enter" + "}" && '}' !in "enter" && '+' !in "enter"
    ensures !StartsWith("enter", DelayPrefix) && !Capitalised("enter")
  {
  }

  /** Names are case-sensitive: `{enter}` is handed to the driver as `enter`. */
  lemma LowerCaseKeyPassesThrough()
    ensures ParseKeys("{enter}") == [Key("enter")]
  {
    SpellLowerEnter();
    ParseWrapped("enter");
    UncapitalisedPassesThrough("enter");
  }

  lemma SpellGoNow()
    ensures "go{now" == "go" + "{" + "now" && '{' !in "go" && '}' !in "now"
  {
  }

  lemma UnclosedBrace()
    ensures ParseKeys("go{now") == [Text("go"), Text("{now")]
  {
    SpellGoNow();
    ParseTextThenUnclosed("go", "now");
  }

  lemma SpellDelay2500()
    ensures "{Delay:2500}" == "{" + (DelayPrefix + "2500") + "}" && '}' !in DelayPrefix + "2500"
    ensures Decimal(2500) + "" == "2500"
  {
    assert Decimal(2) == "2";
    assert Decimal(25) == "25";
    assert Decimal(250) == "250";
  }

  lemma DelayNumber()
    ensures ParseKeys("{Delay:2500}") == [Delay(2500)]
  {
    SpellDelay2500();
    ParseWrapped(DelayPrefix + "2500");
    DelayDirective("2500");
    DelayOfNumber(2500, "");
  }

  lemma SpellDelayAbc()
    ensures "{Delay:abc}" == "{" + (DelayPrefix + "abc") + "}" && '}' !in DelayPrefix + "abc"
  {
  }

  lemma DelayNotANumber()
    ensures ParseKeys("{Delay:abc}") == [Delay(1000)]
  {
    SpellDelayAbc();
    ParseWrapped(DelayPrefix + "abc");
    DelayDirective("abc");
    DelayOfNaN("abc");
  }

  lemma TrimPlainName(t: string)
    requires |t| > 0 && !IsWhite(t[0]) && !IsWhite(t[|t| - 1])
    ensures Trim(t) == t
  {
    TrimMeaning(t);
  }

  lemma SplitCtrlAltDelete()
    ensures Split("Ctrl+Alt+Delete", '+') == ["Ctrl", "Alt", "Delete"]
  {
    var parts := ["Ctrl", "Alt", "Delete"];
    assert Join(parts, '+') == "Ctrl+Alt+Delete";
    SplitJoin(parts, '+');
  }

  lemma ResolveCtrl()
    ensures Resolve(Trim("Ctrl")) == "Control"
  {
    TrimPlainName("Ctrl");
    CommonAliases();
  }

  lemma ResolveAlt()
    ensures Resolve(Trim("Alt")) == "Alt"
  {
    TrimPlainName("Alt");
    ResolveKeyName("Alt");
  }

  lemma ResolveDelete()
    ensures Resolve(Trim("Delete")) == "Delete"
  {
    TrimPlainName("Delete");
    ResolveKeyName("Delete");
  }

  lemma MapThree(a: string, b: string, c: string, f: string -> string)
    ensures MapAll([a, b, c], f) == [f(a), f(b), f(c)]
  {
    assert [a, b, c][1..] == [b, c];
    assert [b, c][1..] == [c];
    assert MapAll([c], f) == [f(c)];
  }

  lemma ResolveCtrlAltDelete()
    ensures ResolveParts(["Ctrl", "Alt", "Delete"]) == ["Control", "Alt", "Delete"]
  {
    MapThree("Ctrl", "Alt", "Delete", ResolveTrimmed);
    ResolveCtrl();
    ResolveAlt();
    ResolveDelete();
  }

  lemma JoinThree(a: string, b: string, c: string, sep: char)
    ensures Join([a, b, c], sep) == a + [sep] + b + [sep] + c
  {
    assert [a, b, c][1..] == [b, c];
    assert [b, c][1..] == [c];
    assert Join([b, c], sep) == b + [sep] + c;
  }

  lemma SpellControlAltDelete()
    ensures "Control" + ['+'] + "Alt" + ['+'] + "Delete" == "Control+Alt+Delete"
  {
  }

  lemma PartsCtrlAltDelete()
    ensures ResolveParts(Split("Ctrl+Alt+Delete", '+')) == ["Control", "Alt", "Delete"]
  {
    SplitCtrlAltDelete();
    ResolveCtrlAltDelete();
  }

  /** Each segment of a combo is resolved on its own, then the segments are joined again. */
  lemma ChordCtrlAltDelete()
    ensures Chord("Ctrl+Alt+Delete") == "Control+Alt+Delete"
  {
    PartsCtrlAltDelete();
    JoinThree("Control", "Alt", "Delete", '+');
    SpellControlAltDelete();
  }

  lemma ComboIsChord(inner: string)
    requires !StartsWith(inner, DelayPrefix) && '+' in inner
    ensures Directive(inner) == Combo(Chord(inner))
  {
  }

  lemma CtrlAltDeleteIsCombo()
    ensures !StartsWith("Ctrl+Alt+Delete", DelayPrefix) && '+' in "Ctrl+Alt+Delete"
  {
    assert "Ctrl+Alt+Delete"[0] != DelayPrefix[0];
    assert "Ctrl+Alt+Delete"[4] == '+';
  }

  lemma DirectiveCtrlAltDelete()
    ensures Directive("Ctrl+Alt+Delete") == Combo("Control+Alt+Delete")
  {
    CtrlAltDeleteIsCombo();
    ComboIsChord("Ctrl+Alt+Delete");
    ChordCtrlAltDelete();
  }

  lemma SpellCtrlAltDeleteBraces()
    ensures "{Ctrl+Alt+Delete}" == "{" + "Ctrl+Alt+Delete" + "}" && '}' !in "Ctrl+Alt+Delete"
  {
  }

  lemma CtrlAltDelete()
    ensures ParseKeys("{Ctrl+Alt+Delete}") == [Combo("Control+Alt+Delete")]
  {
    SpellCtrlAltDeleteBraces();
    ParseWrapped("Ctrl+Alt+Delete");
    DirectiveCtrlAltDelete();
  }

  lemma SpellDelay5x()
    ensures "{Delay:5+x}" == "{" + (DelayPrefix + "5+x") + "}" && '}' !in DelayPrefix + "5+x"
    ensures Decimal(5) + "+x" == "5+x"
  {
  }

  /** `Delay:` is looked at before `+`: `{Delay:5+x}` is a 5 ms delay, not a combo. */
  lemma DelayBeforeCombo()
    ensures ParseKeys("{Delay:5+x}") == [Delay(5)]
  {
    SpellDelay5x();
    ParseWrapped(DelayPrefix + "5+x");
    DelayDirective("5+x");
    DelayOfNumber(5, "+x");
  }

  lemma SpellDelayMinus5()
    ensures "{Delay:-5}" == "{" + (DelayPrefix + "-5") + "}" && '}' !in DelayPrefix + "-5"
    ensures "-" + Decimal(5) + "" == "-5"
  {
  }

  /** Negative delays are kept. */
  lemma NegativeDelay()
    ensures ParseKeys("{Delay:-5}") == [Delay(-5)]
  {
    SpellDelayMinus5();
    ParseWrapped(DelayPrefix + "-5");
    DelayDirective("-5");
    DelayOfNegative(5, "");
  }
}
