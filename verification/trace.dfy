/**
  The browser side of both scripts, reduced to the sequence of actions they
  ask of it. Every Playwright call that matters to the control flow becomes
  one event; what the browser answers comes back in as an observation.
 */
module Trace {

  /** The two pages a screenshot can be taken of. */
  datatype Surface = MainPage | ViewerPage

  datatype Event =
    | Login                        // load the login form, fill it in and submit it
    | Wait(ms: int)                // `waitForTimeout(ms)` or a `setTimeout` sleep
    | CheckSession                 // read `garc` and `features` from session storage
    | ReadToken                    // read `garc` once more after the session poll
    | OpenViewer                   // `window.open('viewer.html')` and wait for the popup
    | ReadToggle                   // read the text of the `#toggle` element
    | ClickToggle                  // click `#toggle` to start the KVM stream
    | ClickCanvas                  // click `canvas#kvm` to give it the keyboard focus
    | Press(key: string)           // `keyboard.press(key)`
    | Screenshot(surface: Surface) // a JPEG screenshot to the output path
    | StopStream                   // teardown's click on a toggle that reads `Stop`
    | CloseViewer                  // `viewer.close()`
    | DeleteSession(token: string) // `DELETE /api/session` with `X-CSRFTOKEN: token`

  /** No screenshot of any page is taken in a trace. */
  predicate NoScreenshot(events: seq<Event>) {
    forall e :: e in events ==> !e.Screenshot?
  }

  /** No session is deleted in a trace. */
  predicate NoSessionDelete(events: seq<Event>) {
    forall e :: e in events ==> !e.DeleteSession?
  }

  /** How often `e` occurs in a trace. */
  function Count(events: seq<Event>, e: Event): nat {
    if |events| == 0 then 0
    else (if events[0] == e then 1 else 0) + Count(events[1..], e)
  }

  /** The time a trace spends waiting, in milliseconds. */
  function TotalWait(events: seq<Event>): int {
    if |events| == 0 then 0
    else (if events[0].Wait? then events[0].ms else 0) + TotalWait(events[1..])
  }

  /** The key names a trace presses, in order. */
  function Presses(events: seq<Event>): seq<string> {
    if |events| == 0 then []
    else (if events[0].Press? then [events[0].key] else []) + Presses(events[1..])
  }

  /** Waiting time adds up over consecutive parts of a trace. */
  lemma {:induction false} TotalWaitAppend(a: seq<Event>, b: seq<Event>)
    ensures TotalWait(a + b) == TotalWait(a) + TotalWait(b)
    decreases |a|
  {
    if |a| > 0 {
      assert (a + b)[1..] == a[1..] + b;
      TotalWaitAppend(a[1..], b);
    } else {
      assert a + b == b;
    }
  }

  /** A trace without presses presses no keys. */
  lemma {:induction false} NoPresses(events: seq<Event>)
    requires forall e :: e in events ==> !e.Press?
    ensures Presses(events) == []
    decreases |events|
  {
    if |events| > 0 {
      assert events[0] in events;
      assert forall e :: e in events[1..] ==> e in events;
      NoPresses(events[1..]);
    }
  }

  /** A trace made of two screenshot-free parts is screenshot-free. */
  lemma NoScreenshotAppend(a: seq<Event>, b: seq<Event>)
    requires NoScreenshot(a) && NoScreenshot(b)
    ensures NoScreenshot(a + b)
  {
    assert forall e :: e in a + b ==> e in a || e in b;
  }

  /** Occurrences in a two-event trace. */
  lemma CountPair(a: Event, b: Event, e: Event)
    ensures Count([a, b], e) == (if a == e then 1 else 0) + (if b == e then 1 else 0)
  {
    assert [a, b][1..] == [b];
    assert Count([b], e) == (if b == e then 1 else 0) by {
      assert [b][1..] == [];
    }
  }

  /** Occurrences add up over consecutive parts of a trace. */
  lemma {:induction false} CountAppend(a: seq<Event>, b: seq<Event>, e: Event)
    ensures Count(a + b, e) == Count(a, e) + Count(b, e)
    decreases |a|
  {
    if |a| > 0 {
      assert (a + b)[1..] == a[1..] + b;
      CountAppend(a[1..], b, e);
    } else {
      assert a + b == b;
    }
  }

  /** The pressed keys of consecutive parts of a trace follow each other. */
  lemma {:induction false} PressesAppend(a: seq<Event>, b: seq<Event>)
    ensures Presses(a + b) == Presses(a) + Presses(b)
    decreases |a|
  {
    if |a| > 0 {
      assert (a + b)[1..] == a[1..] + b;
      PressesAppend(a[1..], b);
    } else {
      assert a + b == b;
    }
  }
}
