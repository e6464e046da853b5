/**
  The key-notation parser of kvm-sendkeys.js: a left-to-right scan that
  turns a key string such as `root{Enter}{Ctrl+Alt+Delete}{Delay:2000}`
  into a list of actions.
 */
module KeyParser {
  import opened Wrappers
  import opened Strings
  import opened JsNumber
  import opened KeyMap

  /**
    One parsed action. A combo carries the single `+`-joined string the
    script hands to the driver, not a list of names.
   */
  datatype Action =
    | Text(text: string)
    | Key(name: string)
    | Combo(chord: string)
    | Delay(ms: int)

  const DelayPrefix: string := "Delay:"

  /** The delay used when the `Delay:` suffix is not a number, or is zero. */
  const DefaultDelayMs: int := 1000

  /** `parseInt(suffix) || 1000`: both `NaN` and 0 are falsy; negative values stay. */
  function DelayMs(suffix: string): (ms: int)
    ensures ms != 0
  {
    match ParseInt(suffix)
    case Some(n) => if n == 0 then DefaultDelayMs else n
    case None => DefaultDelayMs
  }

  /** A written-out count of milliseconds is the delay, except that 0 means the default. */
  lemma DelayOfNumber(n: nat, rest: string)
    requires |rest| > 0 ==> !IsRadixDigit(rest[0], 10)
    requires n == 0 && |rest| > 0 ==> rest[0] != 'x' && rest[0] != 'X'
    ensures DelayMs(Decimal(n) + rest) == if n == 0 then DefaultDelayMs else n
  {
    ParseIntDecimal(n, rest);
  }

  /** A negative count is kept as it is. */
  lemma DelayOfNegative(n: nat, rest: string)
    requires n > 0
    requires |rest| > 0 ==> !IsRadixDigit(rest[0], 10)
    ensures DelayMs("-" + Decimal(n) + rest) == -(n as int)
  {
    ParseIntNegative(n, rest);
  }

  /** A suffix that is not a number gives the default delay. */
  lemma DelayOfNaN(suffix: string)
    requires |suffix| > 0 && !IsWhite(suffix[0]) && suffix[0] != '-' && suffix[0] != '+'
    requires !IsRadixDigit(suffix[0], 10)
    ensures DelayMs(suffix) == DefaultDelayMs
  {
    ParseIntNaN(suffix);
  }

  /** `parts.map(f)` */
  function MapAll(parts: seq<string>, f: string -> string): seq<string> {
    if |parts| == 0 then [] else [f(parts[0])] + MapAll(parts[1..], f)
  }

  /** Mapping keeps one entry per part, in the same order. */
  lemma {:induction false} MapAllAt(parts: seq<string>, f: string -> string, k: nat)
    requires k < |parts|
    ensures |MapAll(parts, f)| == |parts|
    ensures MapAll(parts, f)[k] == f(parts[k])
  {
    if k > 0 {
      MapAllAt(parts[1..], f, k - 1);
    } else if |parts| > 1 {
      MapAllAt(parts[1..], f, 0);
    }
  }

  /** A map whose function keeps `c` out keeps `c` out of every entry. */
  lemma {:induction false} MapAllKeepsOut(parts: seq<string>, f: string -> string, c: char)
    requires forall k :: 0 <= k < |parts| ==> c !in parts[k]
    requires forall p :: c !in p ==> c !in f(p)
    ensures forall k :: 0 <= k < |MapAll(parts, f)| ==> c !in MapAll(parts, f)[k]
  {
    forall k | 0 <= k < |MapAll(parts, f)| ensures c !in MapAll(parts, f)[k] {
      MapAllAt(parts, f, 0);
      MapAllAt(parts, f, k);
    }
  }

  /** `p => KEY_MAP[p.trim()] || p.trim()` */
  function ResolveTrimmed(p: string): string {
    Resolve(Trim(p))
  }

  /** Trimming and resolving keep a `+`-free segment `+`-free. */
  lemma ResolveTrimmedKeepsPlusOut()
    ensures forall p :: '+' !in p ==> '+' !in ResolveTrimmed(p)
  {
    forall p | '+' !in p ensures '+' !in ResolveTrimmed(p) {
      TrimKeepsOut(p, '+');
      ResolveKeepsPlusOut(Trim(p));
    }
  }

  /** `parts.map(p => KEY_MAP[p.trim()] || p.trim())` */
  function ResolveParts(parts: seq<string>): seq<string> {
    MapAll(parts, ResolveTrimmed)
  }

  /** `inner.split('+').map(...).join('+')`: the combo string for a directive with `+` in it. */
  function Chord(inner: string): string {
    Join(ResolveParts(Split(inner, '+')), '+')
  }

  /**
    Splitting a chord at `+` gives back exactly the trimmed and resolved
    segments of the directive, as many as it had and in the same order.
   */
  lemma ChordSplitsBack(inner: string)
    ensures Split(Chord(inner), '+') == ResolveParts(Split(inner, '+'))
    ensures |Split(Chord(inner), '+')| == |Split(inner, '+')|
  {
    var parts := Split(inner, '+');
    var names := ResolveParts(parts);
    MapAllAt(parts, ResolveTrimmed, 0);
    ResolveTrimmedKeepsPlusOut();
    MapAllKeepsOut(parts, ResolveTrimmed, '+');
    SplitJoin(names, '+');
  }

  /** The action for the text between a `{` and its closing `}`. */
  function Directive(inner: string): (a: Action)
    ensures a.Delay? <==> StartsWith(inner, DelayPrefix)
    ensures a.Combo? <==> !StartsWith(inner, DelayPrefix) && '+' in inner
    ensures a.Key? <==> !StartsWith(inner, DelayPrefix) && '+' !in inner
    ensures a.Delay? ==> a.ms == DelayMs(inner[|DelayPrefix|..]) && a.ms != 0
    ensures a.Key? ==> a.name == Resolve(inner)
  {
    if StartsWith(inner, DelayPrefix) then Delay(DelayMs(inner[|DelayPrefix|..]))
    else if '+' in inner then Combo(Chord(inner))
    else Key(Resolve(inner))
  }

  /**
    A directive with `+` in it that is not a delay is a combo whose chord
    splits back into the directive's trimmed, resolved segments.
   */
  lemma ComboDirective(inner: string)
    requires !StartsWith(inner, DelayPrefix) && '+' in inner
    ensures Directive(inner).Combo?
    ensures Split(Directive(inner).chord, '+') == ResolveParts(Split(inner, '+'))
    ensures |Split(Directive(inner).chord, '+')| == |Split(inner, '+')| >= 2
  {
    ChordSplitsBack(inner);
    var k := IndexOf(inner, '+', 0);
    assert k != -1;
  }

  /**
    The scan from position `i` on. A `{` opens a directive that runs to the
    next `}`; with no `}` left the rest of the input is one last text action.
    Anything else is a text action running up to the next `{` or the end.
    What a directive means is left to `interpret`, which gets the text
    between the braces; `parseKeys` uses `Directive`.
   */
  function Scan(s: string, i: nat, interpret: string -> Action): (actions: seq<Action>)
    requires i <= |s|
    ensures |actions| == 0 <==> i == |s|
    ensures |actions| <= |s| - i
    decreases |s| - i
  {
    if i == |s| then []
    else if s[i] == '{' then
      var end := IndexOf(s, '}', i);
      if end == -1 then [Text(s[i..])]
      else [interpret(s[i + 1..end])] + Scan(s, end + 1, interpret)
    else
      var next := IndexOf(s, '{', i);
      var end := if next == -1 then |s| else next;
      [Text(s[i..end])] + Scan(s, end, interpret)
  }

  /** A directive is never typed as text. */
  lemma DirectiveIsNoText()
    ensures forall inner :: !Directive(inner).Text?
  {
  }

  /**
    When `interpret` never yields text, every text action of the scan is a
    non-empty stretch of the input.
   */
  lemma {:induction false} ScanTexts(s: string, i: nat, interpret: string -> Action)
    requires i <= |s|
    requires forall inner :: !interpret(inner).Text?
    ensures forall k :: 0 <= k < |Scan(s, i, interpret)| && Scan(s, i, interpret)[k].Text? ==>
      |Scan(s, i, interpret)[k].text| > 0
    decreases |s| - i
  {
    if i < |s| {
      if s[i] == '{' {
        var end := IndexOf(s, '}', i);
        if end != -1 {
          ScanTexts(s, end + 1, interpret);
        }
      } else {
        var next := IndexOf(s, '{', i);
        var end := if next == -1 then |s| else next;
        ScanTexts(s, end, interpret);
      }
    }
  }

  /** `parseKeys(str)` */
  function ParseKeys(s: string): (actions: seq<Action>)
    ensures |actions| == 0 <==> |s| == 0
    ensures |actions| <= |s|
    ensures forall k :: 0 <= k < |actions| && actions[k].Text? ==> |actions[k].text| > 0
  {
    DirectiveIsNoText();
    ScanTexts(s, 0, Directive);
    Scan(s, 0, Directive)
  }
}
