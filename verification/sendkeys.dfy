/**
  The whole of kvm-sendkeys.js as a decision procedure over the browser's
  answers: log in, wait for the session, open the viewer, wait for the KVM
  stream, play the parsed keys, clean up. Unlike the capture script it
  takes no screenshots, and it gives up (exit 1) when the stream does not
  come up, before any key reaches the remote console.
 */
module SendKeys {
  import opened Trace
  import opened Polling
  import opened Teardown
  import opened Host
  import opened Browser
  import opened KeyParser
  import opened Dispatch

  /** Arguments: host, user, password, key string. */
  function SendKeysRun(args: seq<string>, obs: Observations): Run {
    if !Accepted(args) then Run([], 1)
    else if !obs.loginLoads then Run([Login], 1)
    else if !Truthy(obs.token) then Run(SessionPhase(obs), 1)
    else if !obs.viewerOpens then Run(SessionPhase(obs) + [OpenViewer], 1)
    else
      var kvm := KvmPollRun(Readings(obs.toggles));
      var connect := SessionPhase(obs) + [OpenViewer] + kvm.events;
      if !kvm.ready then Run(connect, 1)
      else Run(connect + KeysPhase(Arg(args, 3), obs.teardown, obs.token.value), 0)
  }

  /** With the stream up: focus the canvas, play the keys, clean up. */
  function KeysPhase(keys: string, view: ViewerToggle, token: string): seq<Event> {
    DispatchTrace(ParseKeys(keys)) + TeardownTrace(view, token)
  }

  /** The run gets as far as playing the keys. */
  predicate SendKeysSucceeds(args: seq<string>, obs: Observations) {
    && Accepted(args) && obs.loginLoads && Truthy(obs.token) && obs.viewerOpens
    && KvmPollRun(Readings(obs.toggles)).ready
  }

  /** The exit status is 0 exactly when the keys were played, and 1 otherwise. */
  lemma SendKeysExitStatus(args: seq<string>, obs: Observations)
    ensures SendKeysRun(args, obs).exitCode == (if SendKeysSucceeds(args, obs) then 0 else 1)
  {
  }

  /**
    A missing argument (an empty key string included) or a host that is
    not a bare IP address or host name stops the script before the
    browser does anything.
   */
  lemma SendKeysHostGate(args: seq<string>, obs: Observations)
    requires !ArgsPresent(args) || !ValidHost(Arg(args, 0))
    ensures SendKeysRun(args, obs) == Run([], 1)
  {
  }

  /** Everything up to and including the KVM poll: no key presses, no screenshots, no clean-up. */
  lemma ConnectIsQuiet(session: seq<Event>, kvm: KvmPoll)
    requires KvmTraceShape(kvm)
    requires SessionEvents(session)
    ensures var c := session + [OpenViewer] + kvm.events;
      && Presses(c) == []
      && NoScreenshot(c) && NoSessionDelete(c)
      && CloseViewer !in c && ClickCanvas !in c
  {
    var c := session + [OpenViewer] + kvm.events;
    assert forall e :: e in c ==> e in session || e == OpenViewer || e in kvm.events;
    NoPresses(c);
  }

  /** Logging in and opening the viewer: no key presses, no screenshots, no clean-up. */
  lemma SessionIsQuiet(session: seq<Event>, tail: seq<Event>)
    requires SessionEvents(session)
    requires tail == [] || tail == [OpenViewer]
    ensures var c := session + tail;
      && Presses(c) == []
      && NoScreenshot(c) && NoSessionDelete(c)
      && CloseViewer !in c && ClickCanvas !in c
  {
    var c := session + tail;
    assert forall e :: e in c ==> e in session || e in tail;
    NoPresses(c);
  }

  /** The events up to a failure: a prefix of the connection phase, all of them quiet. */
  lemma FailureIsQuiet(args: seq<string>, obs: Observations)
    requires !SendKeysSucceeds(args, obs)
    ensures var r := SendKeysRun(args, obs);
      && Presses(r.events) == []
      && NoScreenshot(r.events) && NoSessionDelete(r.events)
      && CloseViewer !in r.events && ClickCanvas !in r.events
  {
    if !Accepted(args) {
    } else if !obs.loginLoads {
      assert Presses([Login]) == [];
    } else if !Truthy(obs.token) {
      SessionIsQuiet(SessionPhase(obs), []);
      assert SessionPhase(obs) + [] == SessionPhase(obs);
    } else if !obs.viewerOpens {
      SessionIsQuiet(SessionPhase(obs), [OpenViewer]);
    } else {
      var kvm := KvmPollRun(Readings(obs.toggles));
      KvmPollRunEvents(Readings(obs.toggles));
      ConnectIsQuiet(SessionPhase(obs), kvm);
    }
  }

  /** After a quiet connection, the run presses exactly the key stream and clicks the canvas. */
  lemma KeysAfterConnect(connect: seq<Event>, actions: seq<Action>, view: ViewerToggle, token: string)
    requires Presses(connect) == [] && ClickCanvas !in connect
    ensures var r := connect + (DispatchTrace(actions) + TeardownTrace(view, token));
      && Presses(r) == KeyStream(actions)
      && ClickCanvas in r
  {
    var tail := TeardownTrace(view, token);
    DispatchMeaning(actions);
    assert tail == StopStep(view) + [CloseViewer, DeleteSession(token)];
    assert forall e :: e in tail ==> !e.Press?;
    NoPresses(tail);
    PressesAppend(DispatchTrace(actions), tail);
    PressesAppend(connect, DispatchTrace(actions) + tail);
    assert (DispatchTrace(actions) + tail)[0] == ClickCanvas;
  }

  /**
    The keys pressed are exactly the key stream of the parsed key string
    when the stream came up, and none at all otherwise; the canvas is
    clicked only in the first case.
   */
  lemma SendKeysPresses(args: seq<string>, obs: Observations)
    ensures var r := SendKeysRun(args, obs);
      && Presses(r.events) == (if SendKeysSucceeds(args, obs) then KeyStream(ParseKeys(Arg(args, 3))) else [])
      && (ClickCanvas in r.events <==> SendKeysSucceeds(args, obs))
  {
    if SendKeysSucceeds(args, obs) {
      var session := SessionPhase(obs);
      var kvm := KvmPollRun(Readings(obs.toggles));
      KvmPollRunEvents(Readings(obs.toggles));
      ConnectIsQuiet(session, kvm);
      KeysAfterConnect(session + [OpenViewer] + kvm.events, ParseKeys(Arg(args, 3)), obs.teardown, obs.token.value);
    } else {
      FailureIsQuiet(args, obs);
    }
  }

  /** The key-sending script never takes a screenshot. */
  lemma SendKeysNoScreenshot(args: seq<string>, obs: Observations)
    ensures NoScreenshot(SendKeysRun(args, obs).events)
  {
    if SendKeysSucceeds(args, obs) {
      var session := SessionPhase(obs);
      var kvm := KvmPollRun(Readings(obs.toggles));
      KvmPollRunEvents(Readings(obs.toggles));
      ConnectIsQuiet(session, kvm);
      KeysPhaseHasNoScreenshot(Arg(args, 3), obs.teardown, obs.token.value);
      NoScreenshotAppend(session + [OpenViewer] + kvm.events, KeysPhase(Arg(args, 3), obs.teardown, obs.token.value));
    } else {
      FailureIsQuiet(args, obs);
    }
  }

  lemma {:induction false} TypeTextHasNoScreenshot(t: string)
    ensures NoScreenshot(TypeText(t))
    decreases |t|
  {
    if |t| > 0 {
      TypeTextHasNoScreenshot(t[1..]);
    }
  }

  lemma {:induction false} RunActionsHasNoScreenshot(actions: seq<Action>)
    ensures NoScreenshot(RunActions(actions))
    decreases |actions|
  {
    if |actions| > 0 {
      if actions[0].Text? {
        TypeTextHasNoScreenshot(actions[0].text);
      }
      RunActionsHasNoScreenshot(actions[1..]);
    }
  }

  lemma KeysPhaseHasNoScreenshot(keys: string, view: ViewerToggle, token: string)
    ensures NoScreenshot(KeysPhase(keys, view, token))
  {
    RunActionsHasNoScreenshot(ParseKeys(keys));
  }

  /**
    When the script gives up it leaves without cleaning up: `process.exit`
    ends it on the spot, so the viewer stays open and the web session is
    not deleted. Clean-up runs only after the keys were played, and then
    it comes last.
   */
  lemma SendKeysCleanUp(args: seq<string>, obs: Observations)
    ensures var r := SendKeysRun(args, obs);
      && (!SendKeysSucceeds(args, obs) ==> CloseViewer !in r.events && NoSessionDelete(r.events))
      && (SendKeysSucceeds(args, obs) ==>
            var t := TeardownTrace(obs.teardown, obs.token.value);
            |r.events| >= |t| && r.events[|r.events| - |t|..] == t)
  {
    if SendKeysSucceeds(args, obs) {
      var kvm := KvmPollRun(Readings(obs.toggles));
      var connect := SessionPhase(obs) + [OpenViewer] + kvm.events;
      EndsWith(connect + DispatchTrace(ParseKeys(Arg(args, 3))), TeardownTrace(obs.teardown, obs.token.value));
    } else {
      FailureIsQuiet(args, obs);
    }
  }

  lemma EndsWith(front: seq<Event>, t: seq<Event>)
    ensures |front + t| >= |t| && (front + t)[|front + t| - |t|..] == t
  {
  }
}
