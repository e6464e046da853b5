/**
  The two bounded polls both scripts run: waiting for the web application
  to fill session storage after login, and waiting for the KVM toggle to
  read `Stop` (the video stream is up). The browser's answers come in as a
  sequence of observations, one per attempt.
 */
module Polling {
  import opened Wrappers
  import opened Strings
  import opened Trace

  /** Both polls give up after this many attempts. */
  const MaxPolls: nat := 15
  /** The pause that goes with every attempt. */
  const PollPauseMs: int := 1000

  // ---- Session poll ----

  /** What `sessionStorage.getItem` returns for the two keys: `null` or a string. */
  datatype Storage = Storage(garc: Option<string>, features: Option<string>)

  /** JavaScript truthiness of a `getItem` result: present and not empty. */
  predicate Truthy(v: Option<string>) {
    v.Some? && |v.value| > 0
  }

  /** `garc && features` is truthy. */
  predicate SessionReady(st: Storage) {
    Truthy(st.garc) && Truthy(st.features)
  }

  /** The storage seen by check `i`; checks past the given samples see empty storage. */
  function SampleAt(samples: seq<Storage>, i: nat): Storage {
    if i < |samples| then samples[i] else Storage(None, None)
  }

  /** `n` rounds of the session poll: a pause, then a look at the storage. */
  function CheckRounds(n: nat): seq<Event> {
    if n == 0 then [] else [Wait(PollPauseMs), CheckSession] + CheckRounds(n - 1)
  }

  /** Every check is preceded by a pause, and there are as many pauses as checks. */
  lemma {:induction false} CheckRoundsShape(n: nat)
    ensures |CheckRounds(n)| == 2 * n
    ensures Count(CheckRounds(n), CheckSession) == n
    ensures Count(CheckRounds(n), Wait(PollPauseMs)) == n
    ensures TotalWait(CheckRounds(n)) == PollPauseMs * n
    ensures forall k :: 0 <= k < |CheckRounds(n)| && CheckRounds(n)[k] == CheckSession ==>
      k > 0 && CheckRounds(n)[k - 1] == Wait(PollPauseMs)
  {
    if n > 0 {
      var r := CheckRounds(n);
      var rest := CheckRounds(n - 1);
      CheckRoundsShape(n - 1);
      TotalWaitAppend([Wait(PollPauseMs), CheckSession], rest);
      assert TotalWait([Wait(PollPauseMs), CheckSession]) == PollPauseMs by {
        assert [Wait(PollPauseMs), CheckSession][1..][1..] == [];
      }
      forall k | 2 <= k < |r| && r[k] == CheckSession
        ensures r[k - 1] == Wait(PollPauseMs)
      {
        assert r[k] == rest[k - 2];
        assert r[k - 1] == rest[k - 3];
      }
    }
  }

  /** The session poll only pauses and looks at the storage. */
  lemma {:induction false} CheckRoundsOnlyCheck(n: nat)
    ensures forall e :: e in CheckRounds(n) ==> e == Wait(PollPauseMs) || e == CheckSession
  {
    if n > 0 {
      CheckRoundsOnlyCheck(n - 1);
    }
  }

  /** The outcome of the session poll: whether it saw a full session, after how many checks. */
  datatype SessionPoll = SessionPoll(ready: bool, checks: nat, events: seq<Event>)

  /** The session poll from check `i` on. */
  function SessionPollFrom(samples: seq<Storage>, i: nat): (p: SessionPoll)
    requires i <= MaxPolls
    ensures p.checks <= MaxPolls - i
    ensures i < MaxPolls ==> p.checks >= 1
    ensures p.events == CheckRounds(p.checks)
    ensures !p.ready ==> p.checks == MaxPolls - i
    decreases MaxPolls - i
  {
    if i == MaxPolls then SessionPoll(false, 0, [])
    else if SessionReady(SampleAt(samples, i)) then
      SessionPoll(true, 1, [Wait(PollPauseMs), CheckSession])
    else
      var rest := SessionPollFrom(samples, i + 1);
      SessionPoll(rest.ready, rest.checks + 1, [Wait(PollPauseMs), CheckSession] + rest.events)
  }

  /** The poll sees a full session exactly when some remaining check does, and stops at the first. */
  lemma {:induction false} SessionPollStopsAtFirstReady(samples: seq<Storage>, i: nat)
    requires i <= MaxPolls
    ensures var p := SessionPollFrom(samples, i);
      && (p.ready <==> exists k :: i <= k < MaxPolls && SessionReady(SampleAt(samples, k)))
      && (p.ready ==> SessionReady(SampleAt(samples, i + p.checks - 1)))
      && (forall k :: i <= k < i + p.checks - 1 ==> !SessionReady(SampleAt(samples, k)))
    decreases MaxPolls - i
  {
    if i < MaxPolls && !SessionReady(SampleAt(samples, i)) {
      var p := SessionPollFrom(samples, i);
      var rest := SessionPollFrom(samples, i + 1);
      SessionPollStopsAtFirstReady(samples, i + 1);
      assert p.ready == rest.ready && p.checks == rest.checks + 1;
    }
  }

  /**
    The session poll of both scripts: at most 15 checks, each after a
    one-second pause, stopping at the first check that sees both `garc` and
    `features`. Running out of checks is not an error here; the caller
    decides what a missing token means.
   */
  function SessionPollRun(samples: seq<Storage>): (p: SessionPoll)
    ensures 1 <= p.checks <= MaxPolls
    ensures p.events == CheckRounds(p.checks)
    ensures p.ready <==> exists k :: 0 <= k < MaxPolls && SessionReady(SampleAt(samples, k))
    ensures p.ready ==> SessionReady(SampleAt(samples, p.checks - 1))
    ensures forall k :: 0 <= k < p.checks - 1 ==> !SessionReady(SampleAt(samples, k))
    ensures !p.ready ==> p.checks == MaxPolls
    ensures forall e :: e in p.events ==> e == Wait(PollPauseMs) || e == CheckSession
  {
    var p := SessionPollFrom(samples, 0);
    CheckRoundsOnlyCheck(p.checks);
    SessionPollStopsAtFirstReady(samples, 0);
    p
  }

  // ---- KVM toggle poll ----

  /**
    What the poll takes from one read of the toggle text: whether it
    contains `Stop` and whether it contains `Start`. A failed read counts
    as the empty text, which contains neither.
   */
  datatype Toggle = Toggle(stop: bool, start: bool)

  function Reading(text: string): (t: Toggle)
    ensures t.stop <==> exists k :: OccursAt(text, "Stop", k)
    ensures t.start <==> exists k :: OccursAt(text, "Start", k)
  {
    Toggle(Includes(text, "Stop"), Includes(text, "Start"))
  }

  /** The readings of a sequence of toggle texts. */
  function Readings(texts: seq<string>): seq<Toggle> {
    seq(|texts|, k requires 0 <= k < |texts| => Reading(texts[k]))
  }

  /** The reading at attempt `i`; attempts past the given readings read the empty text. */
  function ToggleAt(toggles: seq<Toggle>, i: nat): Toggle {
    if i < |toggles| then toggles[i] else Toggle(false, false)
  }

  /** The empty text, which a failed read gives, shows neither word. */
  lemma FailedRead()
    ensures Reading("") == Toggle(false, false)
  {
  }

  /** Whether the poll from attempt `i` on clicks the toggle: only attempt 0, on `Start` without `Stop`. */
  predicate ClicksAt(toggles: seq<Toggle>, i: nat) {
    i == 0 && ToggleAt(toggles, 0).start && !ToggleAt(toggles, 0).stop
  }

  /** The outcome of the KVM poll: whether the stream came up, after how many reads. */
  datatype KvmPoll = KvmPoll(ready: bool, attempts: nat, events: seq<Event>)

  /** The KVM poll from attempt `i` on. */
  function KvmPollFrom(toggles: seq<Toggle>, i: nat): (p: KvmPoll)
    requires i <= MaxPolls
    ensures p.attempts <= MaxPolls - i
    ensures i < MaxPolls ==> p.attempts >= 1
    ensures !p.ready ==> p.attempts == MaxPolls - i
    decreases MaxPolls - i
  {
    if i == MaxPolls then KvmPoll(false, 0, [])
    else
      var shown := ToggleAt(toggles, i);
      if shown.stop then KvmPoll(true, 1, [ReadToggle])
      else
        var click := if i == 0 && shown.start then [ClickToggle] else [];
        var rest := KvmPollFrom(toggles, i + 1);
        KvmPoll(rest.ready, rest.attempts + 1, [ReadToggle] + click + [Wait(PollPauseMs)] + rest.events)
  }

  /** The poll is ready exactly when some remaining attempt shows `Stop`, and it stops at the first. */
  lemma {:induction false} KvmPollStopsAtFirstStop(toggles: seq<Toggle>, i: nat)
    requires i <= MaxPolls
    ensures var p := KvmPollFrom(toggles, i);
      && (p.ready <==> exists k :: i <= k < MaxPolls && ToggleAt(toggles, k).stop)
      && (p.ready ==> ToggleAt(toggles, i + p.attempts - 1).stop)
      && (forall k :: i <= k < i + p.attempts - 1 ==> !ToggleAt(toggles, k).stop)
    decreases MaxPolls - i
  {
    if i < MaxPolls && !ToggleAt(toggles, i).stop {
      KvmPollStopsAtFirstStop(toggles, i + 1);
    }
  }

  /** How often an event occurs in one round of the KVM poll followed by the rest of the poll. */
  lemma RoundCount(click: seq<Event>, rest: seq<Event>, e: Event)
    ensures Count([ReadToggle] + click + [Wait(PollPauseMs)] + rest, e)
      == Count([ReadToggle], e) + Count(click, e) + Count([Wait(PollPauseMs)], e) + Count(rest, e)
  {
    CountAppend([ReadToggle] + click + [Wait(PollPauseMs)], rest, e);
    CountAppend([ReadToggle] + click, [Wait(PollPauseMs)], e);
    CountAppend([ReadToggle], click, e);
  }

  /** One read per attempt. */
  lemma {:induction false} KvmPollReadsOncePerAttempt(toggles: seq<Toggle>, i: nat)
    requires i <= MaxPolls
    ensures var p := KvmPollFrom(toggles, i); Count(p.events, ReadToggle) == p.attempts
    decreases MaxPolls - i
  {
    if i < MaxPolls && !ToggleAt(toggles, i).stop {
      var rest := KvmPollFrom(toggles, i + 1);
      var click := if ClicksAt(toggles, i) then [ClickToggle] else [];
      KvmPollReadsOncePerAttempt(toggles, i + 1);
      RoundCount(click, rest.events, ReadToggle);
    }
  }

  /** One pause per attempt that did not see `Stop`. */
  lemma {:induction false} KvmPollPacing(toggles: seq<Toggle>, i: nat)
    requires i <= MaxPolls
    ensures var p := KvmPollFrom(toggles, i);
      Count(p.events, Wait(PollPauseMs)) == if p.ready then p.attempts - 1 else p.attempts
    decreases MaxPolls - i
  {
    if i < MaxPolls && !ToggleAt(toggles, i).stop {
      var rest := KvmPollFrom(toggles, i + 1);
      var click := if ClicksAt(toggles, i) then [ClickToggle] else [];
      KvmPollPacing(toggles, i + 1);
      RoundCount(click, rest.events, Wait(PollPauseMs));
    }
  }

  /** After the first attempt the poll never clicks the toggle. */
  lemma {:induction false} KvmPollNoLateClick(toggles: seq<Toggle>, i: nat)
    requires 1 <= i <= MaxPolls
    ensures Count(KvmPollFrom(toggles, i).events, ClickToggle) == 0
    decreases MaxPolls - i
  {
    if i < MaxPolls && !ToggleAt(toggles, i).stop {
      var rest := KvmPollFrom(toggles, i + 1);
      KvmPollNoLateClick(toggles, i + 1);
      RoundCount([], rest.events, ClickToggle);
    }
  }

  /**
    The toggle is clicked once, right after the first read, when that read
    shows `Start` only, and never otherwise.
   */
  lemma KvmPollClicks(toggles: seq<Toggle>)
    ensures var p := KvmPollFrom(toggles, 0);
      && Count(p.events, ClickToggle) == (if ClicksAt(toggles, 0) then 1 else 0)
      && (ClicksAt(toggles, 0) ==> p.events[..3] == [ReadToggle, ClickToggle, Wait(PollPauseMs)])
  {
    if !ToggleAt(toggles, 0).stop {
      var rest := KvmPollFrom(toggles, 1);
      var click := if ClicksAt(toggles, 0) then [ClickToggle] else [];
      KvmPollNoLateClick(toggles, 1);
      RoundCount(click, rest.events, ClickToggle);
    }
  }

  /** The KVM poll only reads and clicks the toggle and pauses, and it ends on the read that saw `Stop` or on a pause. */
  lemma {:induction false} KvmPollOnlyTouchesToggle(toggles: seq<Toggle>, i: nat)
    requires i < MaxPolls
    ensures KvmTraceShape(KvmPollFrom(toggles, i))
    decreases MaxPolls - i
  {
    if !ToggleAt(toggles, i).stop && i + 1 < MaxPolls {
      KvmPollOnlyTouchesToggle(toggles, i + 1);
    }
  }

  /**
    The KVM poll of both scripts: at most 15 reads of the toggle, stopping
    at the first that contains `Stop`; one click on the toggle, only when
    the very first read shows `Start` and not `Stop`; a one-second pause
    after every read that did not show `Stop`.
   */
  function KvmPollRun(toggles: seq<Toggle>): (p: KvmPoll)
    ensures 1 <= p.attempts <= MaxPolls
    ensures p.ready <==> exists k :: 0 <= k < MaxPolls && ToggleAt(toggles, k).stop
    ensures p.ready ==> ToggleAt(toggles, p.attempts - 1).stop
    ensures forall k :: 0 <= k < p.attempts - 1 ==> !ToggleAt(toggles, k).stop
    ensures !p.ready ==> p.attempts == MaxPolls
  {
    KvmPollStopsAtFirstStop(toggles, 0);
    KvmPollFrom(toggles, 0)
  }

  /** What every KVM poll trace looks like: reads, clicks and pauses only, ending on a `Stop` read or a pause. */
  predicate KvmTraceShape(p: KvmPoll) {
    && (forall e :: e in p.events ==> e == ReadToggle || e == ClickToggle || e == Wait(PollPauseMs))
    && |p.events| > 0
    && p.events[|p.events| - 1] == (if p.ready then ReadToggle else Wait(PollPauseMs))
  }

  /**
    The actions of the KVM poll of both scripts: one read per attempt, a
    pause after every read that did not show `Stop`, at most one click,
    and nothing but reads, clicks and pauses; the poll ends on the read
    that saw `Stop`, or on a pause when it gave up.
   */
  lemma KvmPollRunEvents(toggles: seq<Toggle>)
    ensures var p := KvmPollRun(toggles);
      && Count(p.events, ReadToggle) == p.attempts
      && Count(p.events, Wait(PollPauseMs)) == (if p.ready then p.attempts - 1 else p.attempts)
      && Count(p.events, ClickToggle) <= 1
      && (Count(p.events, ClickToggle) == 1 <==> ToggleAt(toggles, 0).start && !ToggleAt(toggles, 0).stop)
      && KvmTraceShape(p)
  {
    KvmPollOnlyTouchesToggle(toggles, 0);
    KvmPollReadsOncePerAttempt(toggles, 0);
    KvmPollPacing(toggles, 0);
    KvmPollClicks(toggles);
  }

  lemma KvmPollExamples()
    ensures KvmPollRun([Toggle(true, false)]) == KvmPoll(true, 1, [ReadToggle])
    ensures KvmPollRun([Toggle(false, true), Toggle(false, false), Toggle(true, false)]) == KvmPoll(true, 3, [
      ReadToggle, ClickToggle, Wait(1000),
      ReadToggle, Wait(1000),
      ReadToggle
    ])
    ensures !KvmPollRun([]).ready
  {
    var toggles := [Toggle(false, true), Toggle(false, false), Toggle(true, false)];
    assert KvmPollFrom(toggles, 2) == KvmPoll(true, 1, [ReadToggle]);
    assert KvmPollFrom(toggles, 1) == KvmPoll(true, 2, [ReadToggle, Wait(1000), ReadToggle]);
  }

  /** The labels the viewer shows: `Start KVM` is a start label, `Stop KVM` a stop label. */
  lemma ToggleLabels()
    ensures Reading("Stop KVM") == Toggle(true, false)
    ensures Reading("Start KVM") == Toggle(false, true)
  {
    assert OccursAt("Stop KVM", "Stop", 0);
    assert OccursAt("Start KVM", "Start", 0);
    forall k | 0 <= k <= 5 ensures !OccursAt("Start KVM", "Stop", k) {
      assert "Start KVM"[k..k + 4] != "Stop" by {
        assert "Start KVM"[k..k + 4][2] == "Start KVM"[k + 2];
      }
    }
    forall k | 0 <= k <= 3 ensures !OccursAt("Stop KVM", "Start", k) {
      assert "Stop KVM"[k..k + 5] != "Start" by {
        assert "Stop KVM"[k..k + 5][2] == "Stop KVM"[k + 2];
      }
    }
  }
}
