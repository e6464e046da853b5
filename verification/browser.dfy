/**
  What the scripts get from outside: their command-line arguments and the
  answers of the browser, supplied up front as observations; and what they
  leave behind: the trace of browser actions and the exit status.
 */
module Browser {
  import opened Wrappers
  import opened Trace
  import opened Polling
  import opened Teardown
  import opened Host

  /** `process.argv.slice(2)[i]`; a missing argument is `undefined`, as falsy as `''`. */
  function Arg(args: seq<string>, i: nat): string {
    if i < |args| then args[i] else ""
  }

  /** Both scripts need four non-empty arguments: host, user, password, and a fourth. */
  predicate ArgsPresent(args: seq<string>) {
    forall i :: 0 <= i < 4 ==> |Arg(args, i)| > 0
  }

  /** The argument and host checks both scripts make before starting the browser. */
  predicate Accepted(args: seq<string>) {
    ArgsPresent(args) && ValidHost(Arg(args, 0))
  }

  /** What the browser answers, in the order the scripts ask. */
  datatype Observations = Observations(
    loginLoads: bool,          // the login page loads and shows its form in time
    session: seq<Storage>,     // what each check of the session poll sees
    token: Option<string>,     // `garc` as read once more after the poll
    viewerOpens: bool,         // the viewer popup appears in time
    toggles: seq<string>,      // the toggle texts the KVM poll reads; a failed read is ''
    teardown: ViewerToggle     // what the stop step of the clean-up finds
  )

  /** The browser actions a run performed and the status it exits with. */
  datatype Run = Run(events: seq<Event>, exitCode: int)

  /** Only what the session phase does: log in, pause, check the session, read the token. */
  predicate SessionEvents(events: seq<Event>) {
    forall e :: e in events ==> e == Login || e == Wait(PollPauseMs) || e == CheckSession || e == ReadToken
  }

  /** Log in, run the session poll, and read the token once more. */
  function SessionPhase(obs: Observations): (r: seq<Event>)
    ensures |r| >= 2 && r[0] == Login && r[|r| - 1] == ReadToken
    ensures SessionEvents(r)
  {
    var poll := SessionPollRun(obs.session);
    [Login] + poll.events + [ReadToken]
  }
}
