/**
  The whole of kvm-capture.js as a decision procedure over the browser's
  answers: log in, wait for the session, open the viewer, wait for the KVM
  stream, screenshot the viewer, clean up. Failures before the viewer
  screenshot leave a screenshot of the main page instead and exit 1.
 */
module Capture {
  import opened Wrappers
  import opened Trace
  import opened Polling
  import opened Teardown
  import opened Host
  import opened Browser

  /** The extra pause for video frames to reach the canvas once the stream is up. */
  const SettlePauseMs: int := 2000

  /** Arguments: host, user, password, output path. */
  function CaptureRun(args: seq<string>, obs: Observations): Run {
    if !Accepted(args) then Run([], 1)
    else if !obs.loginLoads then Run([Login, Screenshot(MainPage)], 1)
    else if !Truthy(obs.token) then Run(SessionPhase(obs) + [Screenshot(MainPage)], 1)
    else if !obs.viewerOpens then Run(SessionPhase(obs) + [OpenViewer, Screenshot(MainPage)], 1)
    else
      var kvm := KvmPollRun(Readings(obs.toggles));
      Run(SessionPhase(obs) + [OpenViewer] + ViewerPhase(kvm, obs.teardown, obs.token.value), 0)
  }

  /** In the viewer, after the KVM poll: settle if the stream came up, screenshot, clean up. */
  function ViewerPhase(kvm: KvmPoll, view: ViewerToggle, token: string): seq<Event> {
    var settle := if kvm.ready then [Wait(SettlePauseMs)] else [];
    kvm.events + settle + [Screenshot(ViewerPage)] + TeardownTrace(view, token)
  }

  /** The run gets as far as the viewer screenshot. */
  predicate CaptureSucceeds(args: seq<string>, obs: Observations) {
    Accepted(args) && obs.loginLoads && Truthy(obs.token) && obs.viewerOpens
  }

  /** The exit status is 0 exactly when every step up to the viewer screenshot went through, and 1 otherwise. */
  lemma CaptureExitStatus(args: seq<string>, obs: Observations)
    ensures CaptureRun(args, obs).exitCode == (if CaptureSucceeds(args, obs) then 0 else 1)
  {
  }

  /**
    A missing argument or a host that is not a bare IP address or host name
    stops the script before the browser does anything: the credentials are
    never typed into any page.
   */
  lemma CaptureHostGate(args: seq<string>, obs: Observations)
    requires !ArgsPresent(args) || !ValidHost(Arg(args, 0))
    ensures CaptureRun(args, obs) == Run([], 1)
  {
  }

  /**
    Every login, token or popup failure ends with a screenshot of the main
    page; the session is never deleted and the viewer never closed, and
    with no token the viewer is not even opened.
   */
  lemma CaptureFailureScreenshot(args: seq<string>, obs: Observations)
    requires Accepted(args) && !CaptureSucceeds(args, obs)
    ensures var r := CaptureRun(args, obs);
      && r.exitCode == 1
      && |r.events| > 0 && r.events[|r.events| - 1] == Screenshot(MainPage)
      && CloseViewer !in r.events
      && NoSessionDelete(r.events)
      && (!Truthy(obs.token) ==> OpenViewer !in r.events)
  {
  }

  /**
    Inside the viewer the screenshot is taken exactly once, whether or not
    the stream came up, with the settle pause right before it exactly when
    the KVM poll saw `Stop`, and the clean-up right after it.
   */
  lemma ViewerPhaseShape(kvm: KvmPoll, view: ViewerToggle, token: string)
    requires KvmTraceShape(kvm)
    ensures var v := ViewerPhase(kvm, view, token); var k := |kvm.events| + (if kvm.ready then 1 else 0);
        && 0 < k < |v|
        && v[k] == Screenshot(ViewerPage)
        && v[k + 1..] == TeardownTrace(view, token)
        && (v[k - 1] == Wait(SettlePauseMs) <==> kvm.ready)
        && NoScreenshot(v[..k]) && NoSessionDelete(v[..k])
  {
    var settle := if kvm.ready then [Wait(SettlePauseMs)] else [];
    var front := kvm.events + settle;
    var tail := TeardownTrace(view, token);
    var v := ViewerPhase(kvm, view, token);
    assert v == front + [Screenshot(ViewerPage)] + tail;
    var k := |front|;
    assert v[..k] == front;
    assert v[k + 1..] == tail;
    assert v[k - 1] == front[|front| - 1];
    if !kvm.ready {
      assert front[|front| - 1] == kvm.events[|kvm.events| - 1];
    }
    assert forall e :: e in front ==> e in kvm.events || e in settle;
  }

  /**
    On success the viewer screenshot is taken exactly once, whether or not
    the stream came up; the settle pause comes right before it exactly
    when the KVM poll saw `Stop`; the clean-up follows it; and no page
    screenshot is taken.
   */
  lemma CaptureSuccessShape(args: seq<string>, obs: Observations)
    requires CaptureSucceeds(args, obs)
    ensures var r := CaptureRun(args, obs);
      && r.exitCode == 0
      && exists k ::
        && 0 < k < |r.events|
        && r.events[k] == Screenshot(ViewerPage)
        && r.events[k + 1..] == TeardownTrace(obs.teardown, obs.token.value)
        && (r.events[k - 1] == Wait(SettlePauseMs) <==> KvmPollRun(Readings(obs.toggles)).ready)
        && NoScreenshot(r.events[..k]) && NoSessionDelete(r.events[..k])
  {
    var kvm := KvmPollRun(Readings(obs.toggles));
    KvmPollRunEvents(Readings(obs.toggles));
    SuccessShapeOf(SessionPhase(obs), kvm, obs.teardown, obs.token.value);
  }

  /** The screenshot point of a trace keeps its surroundings when steps without screenshots or deletes come first. */
  lemma ScreenshotAfterPrefix(head: seq<Event>, v: seq<Event>, j: nat, tail: seq<Event>, ready: bool)
    requires NoScreenshot(head) && NoSessionDelete(head)
    requires 0 < j < |v| && v[j] == Screenshot(ViewerPage) && v[j + 1..] == tail
    requires v[j - 1] == Wait(SettlePauseMs) <==> ready
    requires NoScreenshot(v[..j]) && NoSessionDelete(v[..j])
    ensures var r := head + v; var k := |head| + j;
      && 0 < k < |r| && r[k] == Screenshot(ViewerPage) && r[k + 1..] == tail
      && (r[k - 1] == Wait(SettlePauseMs) <==> ready)
      && NoScreenshot(r[..k]) && NoSessionDelete(r[..k])
  {
    var r := head + v;
    var k := |head| + j;
    assert r[k] == v[j];
    assert r[k - 1] == v[j - 1];
    assert r[k + 1..] == v[j + 1..];
    assert r[..k] == head + v[..j];
  }

  lemma SuccessShapeOf(session: seq<Event>, kvm: KvmPoll, view: ViewerToggle, token: string)
    requires KvmTraceShape(kvm)
    requires SessionEvents(session)
    ensures var r := session + [OpenViewer] + ViewerPhase(kvm, view, token);
      exists k ::
        && 0 < k < |r|
        && r[k] == Screenshot(ViewerPage)
        && r[k + 1..] == TeardownTrace(view, token)
        && (r[k - 1] == Wait(SettlePauseMs) <==> kvm.ready)
        && NoScreenshot(r[..k]) && NoSessionDelete(r[..k])
  {
    var head := session + [OpenViewer];
    var v := ViewerPhase(kvm, view, token);
    ViewerPhaseShape(kvm, view, token);
    var j := |kvm.events| + (if kvm.ready then 1 else 0);
    assert forall e :: e in head ==> e in session || e == OpenViewer;
    ScreenshotAfterPrefix(head, v, j, TeardownTrace(view, token), kvm.ready);
    assert head + v == session + [OpenViewer] + ViewerPhase(kvm, view, token);
    var k := |head| + j;
    assert 0 < k < |head + v|;
  }

  /** The session deleted, if any, is the one whose token was read after login. */
  lemma CaptureDeletesOwnSession(args: seq<string>, obs: Observations, t: string)
    requires DeleteSession(t) in CaptureRun(args, obs).events
    ensures obs.token == Some(t)
  {
    if CaptureSucceeds(args, obs) {
      var kvm := KvmPollRun(Readings(obs.toggles));
      KvmPollRunEvents(Readings(obs.toggles));
      DeletesOwnSessionOf(SessionPhase(obs), kvm, obs.teardown, obs.token.value, t);
    } else if Accepted(args) {
      CaptureFailureScreenshot(args, obs);
    }
  }

  lemma DeletesOwnSessionOf(session: seq<Event>, kvm: KvmPoll, view: ViewerToggle, token: string, t: string)
    requires KvmTraceShape(kvm)
    requires SessionEvents(session)
    requires DeleteSession(t) in session + [OpenViewer] + ViewerPhase(kvm, view, token)
    ensures t == token
  {
    var settle := if kvm.ready then [Wait(SettlePauseMs)] else [];
    var tail := TeardownTrace(view, token);
    assert DeleteSession(t) !in session;
    assert DeleteSession(t) !in kvm.events;
    assert ViewerPhase(kvm, view, token) == kvm.events + settle + [Screenshot(ViewerPage)] + tail;
    assert DeleteSession(t) in tail;
    TeardownMeaning(view, token);
  }
}
