/**
  The key dispatcher of kvm-sendkeys.js: once the KVM canvas has the focus,
  every parsed action is played to the viewer's keyboard in order, with
  fixed pauses, and the result is a trace of presses and waits.
 */
module Dispatch {
  import opened Trace
  import opened KeyParser

  /** The pause after the canvas click that gives the KVM view the focus. */
  const FocusPauseMs: int := 500
  /** The pause after every typed character. */
  const CharPauseMs: int := 50
  /** The pause after every action. */
  const ActionPauseMs: int := 100

  /** The key pressed for one typed character: a space is pressed as `Space`. */
  function KeyName(c: char): string {
    if c == ' ' then "Space" else [c]
  }

  /** Typing a text: each character is pressed, then `CharPauseMs` pass. */
  function TypeText(t: string): (r: seq<Event>)
    ensures |r| == 2 * |t|
    ensures forall k :: 0 <= k < |t| ==> r[2 * k] == Press(KeyName(t[k]))
    ensures forall k :: 0 <= k < |t| ==> r[2 * k + 1] == Wait(CharPauseMs)
  {
    if |t| == 0 then []
    else
      var rest := TypeText(t[1..]);
      TypeTextCons(t, rest);
      [Press(KeyName(t[0])), Wait(CharPauseMs)] + rest
  }

  /** One more character in front of the typing of the rest of a text. */
  lemma TypeTextCons(t: string, rest: seq<Event>)
    requires |t| > 0 && |rest| == 2 * (|t| - 1)
    requires forall k :: 0 <= k < |t| - 1 ==> rest[2 * k] == Press(KeyName(t[1..][k]))
    requires forall k :: 0 <= k < |t| - 1 ==> rest[2 * k + 1] == Wait(CharPauseMs)
    ensures var r := [Press(KeyName(t[0])), Wait(CharPauseMs)] + rest;
      && (forall k :: 0 <= k < |t| ==> r[2 * k] == Press(KeyName(t[k])))
      && (forall k :: 0 <= k < |t| ==> r[2 * k + 1] == Wait(CharPauseMs))
  {
    var r := [Press(KeyName(t[0])), Wait(CharPauseMs)] + rest;
    forall k | 1 <= k < |t|
      ensures r[2 * k] == Press(KeyName(t[k])) && r[2 * k + 1] == Wait(CharPauseMs)
    {
      var j := k - 1;
      assert t[k] == t[1..][j];
      assert 2 * k == 2 * j + 2;
      assert r[2 * j + 2] == rest[2 * j] && r[2 * j + 3] == rest[2 * j + 1];
    }
  }

  /** The events of one action, without the pause that follows every action. */
  function ActionEvents(a: Action): seq<Event> {
    match a
    case Text(t) => TypeText(t)
    case Key(name) => [Press(name)]
    case Combo(chord) => [Press(chord)]
    case Delay(ms) => [Wait(ms)]
  }

  /** The actions in order, each followed by `ActionPauseMs`. */
  function RunActions(actions: seq<Action>): seq<Event> {
    if |actions| == 0 then []
    else ActionEvents(actions[0]) + [Wait(ActionPauseMs)] + RunActions(actions[1..])
  }

  /** Click the canvas, let it settle, then play the actions. */
  function DispatchTrace(actions: seq<Action>): seq<Event> {
    [ClickCanvas, Wait(FocusPauseMs)] + RunActions(actions)
  }

  // Reference definitions: what the dispatcher is meant to press and how long it is meant to wait.

  /** The key names a text stands for, one per character. */
  function TextKeys(t: string): seq<string> {
    seq(|t|, k requires 0 <= k < |t| => KeyName(t[k]))
  }

  /** The key names one action stands for. */
  function ActionKeys(a: Action): seq<string> {
    match a
    case Text(t) => TextKeys(t)
    case Key(name) => [name]
    case Combo(chord) => [chord]
    case Delay(_) => []
  }

  /** The key names of a list of actions, in order. */
  function KeyStream(actions: seq<Action>): seq<string> {
    if |actions| == 0 then [] else ActionKeys(actions[0]) + KeyStream(actions[1..])
  }

  /** The number of characters the text actions type. */
  function TypedLength(actions: seq<Action>): nat {
    if |actions| == 0 then 0
    else (if actions[0].Text? then |actions[0].text| else 0) + TypedLength(actions[1..])
  }

  /** The sum of the delay actions' values. */
  function DelaySum(actions: seq<Action>): int {
    if |actions| == 0 then 0
    else (if actions[0].Delay? then actions[0].ms else 0) + DelaySum(actions[1..])
  }

  /** Typing a text presses its characters' key names and waits `CharPauseMs` per character. */
  lemma {:induction false} TypeTextMeaning(t: string)
    ensures Presses(TypeText(t)) == TextKeys(t)
    ensures TotalWait(TypeText(t)) == CharPauseMs * |t|
    decreases |t|
  {
    if |t| > 0 {
      var head := [Press(KeyName(t[0])), Wait(CharPauseMs)];
      TypeTextMeaning(t[1..]);
      PressesAppend(head, TypeText(t[1..]));
      TotalWaitAppend(head, TypeText(t[1..]));
      assert Presses(head) == [KeyName(t[0])] by {
        assert head[1..][1..] == [];
      }
      assert TotalWait(head) == CharPauseMs by {
        assert head[1..][1..] == [];
      }
      assert TextKeys(t) == [KeyName(t[0])] + TextKeys(t[1..]);
    }
  }

  /**
    Text presses one key per character, a key or a combo exactly one key
    with its value, a delay none; only text and delays wait.
   */
  lemma ActionEventsMeaning(a: Action)
    ensures Presses(ActionEvents(a)) == ActionKeys(a)
    ensures TotalWait(ActionEvents(a)) ==
      match a
      case Text(t) => CharPauseMs * |t|
      case Delay(ms) => ms
      case _ => 0
  {
    if a.Text? {
      TypeTextMeaning(a.text);
    }
  }

  /** Playing two lists of actions one after the other plays their concatenation. */
  lemma {:induction false} RunActionsAppend(a: seq<Action>, b: seq<Action>)
    ensures RunActions(a + b) == RunActions(a) + RunActions(b)
    decreases |a|
  {
    if |a| == 0 {
      assert a + b == b;
    } else {
      assert (a + b)[0] == a[0];
      assert (a + b)[1..] == a[1..] + b;
      RunActionsAppend(a[1..], b);
    }
  }

  /** One action and its pause in front of a trace press the action's keys, then the trace's. */
  lemma ActionStepPresses(a: Action, rest: seq<Event>)
    ensures Presses(ActionEvents(a) + [Wait(ActionPauseMs)] + rest) == ActionKeys(a) + Presses(rest)
  {
    var head := ActionEvents(a) + [Wait(ActionPauseMs)];
    ActionEventsMeaning(a);
    PressesAppend(ActionEvents(a), [Wait(ActionPauseMs)]);
    PressesAppend(head, rest);
    assert Presses([Wait(ActionPauseMs)]) == [];
  }

  /** One action and its pause in front of a trace wait the action's time and the pause. */
  lemma ActionStepWait(a: Action, rest: seq<Event>)
    ensures TotalWait(ActionEvents(a) + [Wait(ActionPauseMs)] + rest)
      == TotalWait(ActionEvents(a)) + ActionPauseMs + TotalWait(rest)
  {
    var head := ActionEvents(a) + [Wait(ActionPauseMs)];
    TotalWaitAppend(ActionEvents(a), [Wait(ActionPauseMs)]);
    TotalWaitAppend(head, rest);
    assert TotalWait([Wait(ActionPauseMs)]) == ActionPauseMs;
  }

  /** The dispatcher presses exactly the key stream of the actions, in order. */
  lemma {:induction false} RunActionsPresses(actions: seq<Action>)
    ensures Presses(RunActions(actions)) == KeyStream(actions)
    decreases |actions|
  {
    if |actions| > 0 {
      RunActionsPresses(actions[1..]);
      ActionStepPresses(actions[0], RunActions(actions[1..]));
    }
  }

  /** The dispatcher waits `ActionPauseMs` per action, `CharPauseMs` per character, and every delay. */
  lemma {:induction false} RunActionsWait(actions: seq<Action>)
    ensures TotalWait(RunActions(actions))
      == ActionPauseMs * |actions| + CharPauseMs * TypedLength(actions) + DelaySum(actions)
    decreases |actions|
  {
    if |actions| > 0 {
      RunActionsWait(actions[1..]);
      ActionEventsMeaning(actions[0]);
      ActionStepWait(actions[0], RunActions(actions[1..]));
    }
  }

  /**
    The whole dispatch: the canvas click comes first, the keys pressed are
    the actions' key stream, and the time spent waiting is the focus pause
    plus the pauses and delays of the actions.
   */
  lemma DispatchMeaning(actions: seq<Action>)
    ensures DispatchTrace(actions)[0] == ClickCanvas
    ensures Presses(DispatchTrace(actions)) == KeyStream(actions)
    ensures TotalWait(DispatchTrace(actions))
      == FocusPauseMs + ActionPauseMs * |actions| + CharPauseMs * TypedLength(actions) + DelaySum(actions)
  {
    var head := [ClickCanvas, Wait(FocusPauseMs)];
    RunActionsPresses(actions);
    RunActionsWait(actions);
    PressesAppend(head, RunActions(actions));
    TotalWaitAppend(head, RunActions(actions));
    assert Presses(head) == [] by {
      assert head[1..][1..] == [];
    }
    assert TotalWait(head) == FocusPauseMs by {
      assert head[1..][1..] == [];
    }
  }

  /** A key, a delay and a two-letter text, traced event by event. */
  lemma DispatchExample()
    ensures DispatchTrace([Key("A"), Delay(300), Text("bc")]) == [
      ClickCanvas, Wait(500),
      Press("A"), Wait(100),
      Wait(300), Wait(100),
      Press("b"), Wait(50), Press("c"), Wait(50), Wait(100)
    ]
  {
    var actions := [Key("A"), Delay(300), Text("bc")];
    assert actions[1..][1..] == [Text("bc")];
    assert TypeText("bc") == [Press("b"), Wait(50), Press("c"), Wait(50)];
  }

  /** A space inside a text is pressed as `Space`. */
  lemma SpaceIsPressedByName()
    ensures TypeText("a b") == [Press("a"), Wait(50), Press("Space"), Wait(50), Press("b"), Wait(50)]
  {
  }
}
