/**
  The clean-up both scripts run after their main work: stop the KVM
  stream if it is running, close the viewer, and delete the web session.
  Each step sits in its own `try`, so a failing step never skips a later one.
 */
module Teardown {
  import opened Strings
  import opened Trace

  /** The pause after the stop step, taken unless the step itself failed. */
  const StopPauseMs: int := 2000

  /** What the stop step finds when it evaluates its script in the viewer. */
  datatype ViewerToggle =
    | NoToggle                  // the page has no `#toggle` element
    | ToggleText(text: string)  // the toggle's current text
    | EvaluateFails             // the evaluation itself throws

  /** `t && t.textContent.includes('Stop')`: the stream is running and gets stopped. */
  predicate StopsStream(view: ViewerToggle) {
    view.ToggleText? && Includes(view.text, "Stop")
  }

  /** The stop step: click a running toggle, then pause, unless the evaluation throws. */
  function StopStep(view: ViewerToggle): seq<Event> {
    if view.EvaluateFails? then []
    else if StopsStream(view) then [StopStream, Wait(StopPauseMs)]
    else [Wait(StopPauseMs)]
  }

  /** All three steps, in their fixed order. */
  function TeardownTrace(view: ViewerToggle, token: string): seq<Event> {
    StopStep(view) + [CloseViewer, DeleteSession(token)]
  }

  /**
    The stream is stopped exactly when the toggle reads `Stop`; the pause
    follows unless the stop step threw; the viewer is closed exactly once
    and then the session carrying the token is deleted exactly once, last,
    whatever the stop step did.
   */
  lemma TeardownMeaning(view: ViewerToggle, token: string)
    ensures var r := TeardownTrace(view, token);
      && Count(r, StopStream) == (if StopsStream(view) then 1 else 0)
      && Count(r, Wait(StopPauseMs)) == (if view.EvaluateFails? then 0 else 1)
      && Count(r, CloseViewer) == 1
      && Count(r, DeleteSession(token)) == 1
      && |r| >= 2 && r[|r| - 2..] == [CloseViewer, DeleteSession(token)]
      && (StopsStream(view) ==> r[0] == StopStream)
      && (forall e :: e in r && e.DeleteSession? ==> e.token == token)
  {
    var s := StopStep(view);
    CountPair(CloseViewer, DeleteSession(token), StopStream);
    CountPair(CloseViewer, DeleteSession(token), Wait(StopPauseMs));
    CountPair(CloseViewer, DeleteSession(token), CloseViewer);
    CountPair(CloseViewer, DeleteSession(token), DeleteSession(token));
    CountPair(StopStream, Wait(StopPauseMs), StopStream);
    CountPair(StopStream, Wait(StopPauseMs), Wait(StopPauseMs));
    CountAppend(s, [CloseViewer, DeleteSession(token)], StopStream);
    CountAppend(s, [CloseViewer, DeleteSession(token)], Wait(StopPauseMs));
    CountAppend(s, [CloseViewer, DeleteSession(token)], CloseViewer);
    CountAppend(s, [CloseViewer, DeleteSession(token)], DeleteSession(token));
  }

  /**
    A toggle that shows `Stop KVM` is clicked and one that shows `Start KVM`
    is left alone; without a toggle only the pause is taken, and a failing
    evaluation skips the pause as well.
   */
  lemma TeardownExamples()
    ensures TeardownTrace(ToggleText("Stop KVM"), "abc") == [StopStream, Wait(2000), CloseViewer, DeleteSession("abc")]
    ensures TeardownTrace(ToggleText("Start KVM"), "abc") == [Wait(2000), CloseViewer, DeleteSession("abc")]
    ensures TeardownTrace(NoToggle, "abc") == [Wait(2000), CloseViewer, DeleteSession("abc")]
    ensures TeardownTrace(EvaluateFails, "abc") == [CloseViewer, DeleteSession("abc")]
  {
    assert OccursAt("Stop KVM", "Stop", 0);
    forall k | 0 <= k <= 5 ensures !OccursAt("Start KVM", "Stop", k) {
      assert "Start KVM"[k..k + 4] != "Stop" by {
        assert "Start KVM"[k..k + 4][2] == "Start KVM"[k + 2];
      }
    }
  }
}
