# mcxBMCView KVM scripts in Dafny

A model of the two command-line tools that drive the HTML5 KVM viewer of
an AMI MegaRAC BMC through a headless browser:

- `kvm-sendkeys.js` logs in, opens the viewer, waits for the KVM stream and
  types a key string written in a brace notation, such as
  `root{Enter}{Ctrl+Alt+Delete}{Delay:2000}`.
- `kvm-capture.js` logs in the same way and screenshots the viewer.

The model has three layers.

- **Pure logic.** This covers the brace-notation parser `parseKeys` with
  its alias table `KEY_MAP` (modules `KeyMap`, `KeyParser`, `KeySyntax` and
  `KeyParserExamples`). It also covers the ECMAScript primitives the parser
  relies on (`Strings`, and `JsNumber` for `parseInt`) and the host check
  (`Host`).
- **Traces.** The browser becomes a sequence of events (`Trace`): log in,
  check the session, read the token, open the viewer, read or click the
  KVM toggle, press a key, wait, screenshot, stop the stream, close the
  viewer, delete the session. Each piece of script logic becomes a pure
  function from what the browser answers to the events it performs. These
  pieces are the key dispatcher (`Dispatch`), the two bounded polls
  (`Polling`) and the clean-up (`Teardown`).
- **Whole runs.** Each script becomes one function from its arguments and
  the browser's answers (`Browser.Observations`) to the events it performs
  and its exit status (`Capture.CaptureRun`, `SendKeys.SendKeysRun`).

The main results:

- **Tiling.** `parseKeys` cuts its input into consecutive tokens that tile
  it. A token is a plain run, a closed `{...}`, or one unclosed `{...` at
  the end. That tiling exists and is unique, and the parser's output is the
  tiling's tokens classified one by one.
- **Dispatch.** The dispatcher presses exactly the key stream of the parsed
  actions. It waits a total that is fixed by the number of actions, the
  typed characters and the delays.
- **Polls.** Both polls stop at the first success and never go past 15
  attempts. The KVM toggle is clicked at most once, and only on the first
  read.
- **Whole runs.** The key-sending script presses keys only once the stream
  is up, and never takes a screenshot. Once the browser is up, the
  capture script always asks for a screenshot, and it deletes only the session it logged in with.

## Model

| member | source | states |
|---|---|---|
| KeyMap.Resolve | kvm-sendkeys.js:31-42 | `KEY_MAP[name]`, or `name` when that is missing: a name in the table resolves to a non-empty canonical key name, and any other name resolves to itself |
| KeyMap.AliasTargetsCanonical | kvm-sendkeys.js:31-42 | every value of the 44-entry table is non-empty, contains no `+`, and is itself a name the table maps to itself (or the space) |
| KeyMap.ResolveIdempotent | kvm-sendkeys.js:31-42 | resolving a resolved name changes nothing |
| KeyMap.ResolveKeepsPlusOut | kvm-sendkeys.js:31-42 | resolving a `+`-free name yields a `+`-free name, so the segments of a combo stay separable |
| KeyMap.ResolveRenamed | kvm-sendkeys.js:32-40 | each renaming entry (`Return`, `Esc`, `Up`, `Down`, `Left`, `Right`, `Space`, `Ctrl`, `Win`) resolves to its target |
| KeyMap.CommonAliases | kvm-sendkeys.js:32-40 | `Esc`→`Escape`, `Ctrl`→`Control`, `Win`→`Meta`, `Left`→`ArrowLeft`, `Return`→`Enter`, `Space`→`" "` |
| KeyMap.ResolveKeyName | kvm-sendkeys.js:32-41 | each of the 35 self-mapped names resolves to itself |
| KeyMap.UncapitalisedPassesThrough | kvm-sendkeys.js:31-42 | the lookup is case-sensitive and every table name is capitalised, so a name that does not start with a capital letter is not in the table and passes through unchanged |
| KeyMap.UnlistedPassesThrough | kvm-sendkeys.js:59 | a name that is neither self-mapped nor renamed is outside the table and is used literally |
| KeyMap.SpaceIsNoName | kvm-sendkeys.js:39 | the space that `Space` maps to is not itself a table name, so resolution stops there |
| KeyParser.DelayMs | kvm-sendkeys.js:54 | `parseInt(suffix)`, or 1000 when that is falsy, is never 0: both NaN and 0 become 1000 |
| KeyParser.DelayOfNumber | kvm-sendkeys.js:54 | a written-out count of milliseconds is the delay, except that 0 gives the default 1000 |
| KeyParser.DelayOfNegative | kvm-sendkeys.js:54 | a negative count is kept, so `{Delay:-5}` is a delay of -5 |
| KeyParser.DelayOfNaN | kvm-sendkeys.js:54 | a suffix that does not start like a number gives the default 1000 |
| KeyParser.MapAllAt | kvm-sendkeys.js:56 | `map` keeps one entry per segment, and entry k is the function applied to segment k |
| KeyParser.ChordSplitsBack | kvm-sendkeys.js:55-57 | splitting the joined combo string at `+` gives back exactly the trimmed and resolved segments, in order and as many as the directive had |
| KeyParser.Directive | kvm-sendkeys.js:52-60 | brace content starting with `Delay:` is a delay, even with `+` in it. Otherwise content with `+` is a combo, and anything else is a key whose name is the untrimmed content resolved. All three directions are stated as if-and-only-if |
| KeyParser.ComboDirective | kvm-sendkeys.js:55-57 | a combo carries one `+`-joined string made of at least two resolved segments |
| KeyParser.DirectiveIsNoText | kvm-sendkeys.js:52-60 | a brace directive never becomes a text action |
| KeyParser.Scan | kvm-sendkeys.js:45-70 | the scan from position `i` yields no actions exactly at the end of the input, and at most one action per remaining character |
| KeyParser.ScanTexts | kvm-sendkeys.js:45-70 | every text action the scan yields is non-empty |
| KeyParser.ParseKeys | kvm-sendkeys.js:45-70 | `parseKeys` returns `[]` exactly for the empty string, returns no more actions than characters, and every text action is non-empty |
| KeySyntax.TokensTile | kvm-sendkeys.js:45-70 | the scanner's cut tiles the input. The tokens spell it without gap or overlap; each token is a plain run, a closed `{...}`, or a last unclosed `{...`; no two plain runs touch |
| KeySyntax.TilingUnique | kvm-sendkeys.js:45-70 | any tiling of the input is the scanner's cut |
| KeySyntax.TilingExists | kvm-sendkeys.js:45-70 | every string has a tiling |
| KeySyntax.ScanClassifies | kvm-sendkeys.js:45-70 | whatever the directive interpretation, the scan's output is its tokens classified one by one, a closed `{...}` by the text between its braces |
| KeySyntax.ParseKeysMeaning | kvm-sendkeys.js:45-70 | for any tiling of the input, `parseKeys` returns exactly one action per token: a directive for a closed `{...}`, the token as text otherwise |
| KeyParserExamples.ParseWrapped | kvm-sendkeys.js:49-61 | a string that is one closed `{...}` parses to that one directive |
| KeyParserExamples.ParseTextThenWrapped | kvm-sendkeys.js:62-66 | a plain run followed by a closed `{...}` parses to a text action and the directive |
| KeyParserExamples.ParseTextThenUnclosed | kvm-sendkeys.js:49-51 | a `{` with no later `}` makes the rest of the input one last text action, brace included |
| KeyParserExamples.EmptyInput | kvm-sendkeys.js:45-70 | `parseKeys("")` is `[]` |
| KeyParserExamples.TextThenKey | kvm-sendkeys.js:62-66 | `root{Enter}` is the text `root` followed by the key `Enter` |
| KeyParserExamples.AliasKey | kvm-sendkeys.js:58-59 | `{Esc}` is the key `Escape` |
| KeyParserExamples.UnlistedKeyPassesThrough | kvm-sendkeys.js:58-59 | `{Xyz}` is the key `Xyz` |
| KeyParserExamples.LowerCaseKeyPassesThrough | kvm-sendkeys.js:58-59 | `{enter}` is the key `enter`: names are case-sensitive |
| KeyParserExamples.UnclosedBrace | kvm-sendkeys.js:49-51 | `go{now` is the text `go` followed by the text `{now` |
| KeyParserExamples.DelayNumber | kvm-sendkeys.js:53-54 | `{Delay:2500}` is a delay of 2500 |
| KeyParserExamples.DelayNotANumber | kvm-sendkeys.js:53-54 | `{Delay:abc}` is a delay of 1000 |
| KeyParserExamples.CtrlAltDelete | kvm-sendkeys.js:55-57 | `{Ctrl+Alt+Delete}` is the combo `Control+Alt+Delete` |
| KeyParserExamples.DelayBeforeCombo | kvm-sendkeys.js:53-55 | `{Delay:5+x}` is a 5 ms delay, not a combo |
| KeyParserExamples.NegativeDelay | kvm-sendkeys.js:54 | `{Delay:-5}` is a delay of -5 |
| JsNumber.ParseIntDecimal | kvm-sendkeys.js:54 | `parseInt` reads a decimal number back from its spelling and stops at the first character that cannot continue it |
| JsNumber.ParseIntNegative | kvm-sendkeys.js:54 | a leading `-` negates the number read |
| JsNumber.ParseIntSkipsWhite | kvm-sendkeys.js:54 | leading white space does not change what `parseInt` reads |
| JsNumber.ParseIntNaN | kvm-sendkeys.js:54 | text starting with neither white space, a sign nor a digit is NaN |
| Strings.IndexOf | kvm-sendkeys.js:50 | `indexOf` of one character returns the first position at or after the start that holds it, or -1 exactly when none does |
| Strings.Includes | kvm-sendkeys.js:55 | `includes` holds exactly when the text occurs at some position |
| Strings.TrimMeaning | kvm-sendkeys.js:56 | `trim` returns the slice of the input left between a white prefix and a white suffix, and that slice starts and ends with a non-white character |
| Strings.TrimIdempotent | kvm-sendkeys.js:56 | trimming twice is trimming once |
| Strings.TrimKeepsOut | kvm-sendkeys.js:56 | trimming introduces no character |
| Strings.Split | kvm-sendkeys.js:56 | `split` on one character yields at least one piece, the pieces contain no separator, and joining them gives the input back |
| Strings.SplitJoin | kvm-sendkeys.js:56-57 | splitting a join of separator-free pieces gives the pieces back |
| Dispatch.TypeText | kvm-sendkeys.js:130-133 | typing a text yields two events per character: the character's key press, then a 50 ms wait |
| Dispatch.TypeTextMeaning | kvm-sendkeys.js:130-133 | typing a text presses the key names of its characters in order and waits 50 ms per character |
| Dispatch.ActionEventsMeaning | kvm-sendkeys.js:127-147 | text presses one key per character, a key or a combo presses exactly its value once, a delay presses nothing and waits its value |
| Dispatch.RunActionsAppend | kvm-sendkeys.js:126-149 | playing two lists of actions one after the other is playing their concatenation |
| Dispatch.RunActionsPresses | kvm-sendkeys.js:126-149 | the keys pressed are exactly the actions' key stream, in order |
| Dispatch.RunActionsWait | kvm-sendkeys.js:126-149 | the total wait is 100 ms per action, plus 50 ms per typed character, plus the sum of the delays |
| Dispatch.DispatchMeaning | kvm-sendkeys.js:119-149 | the canvas is clicked first; the presses are the key stream; the total wait adds the 500 ms focus pause to the actions' waits |
| Dispatch.DispatchExample | kvm-sendkeys.js:119-149 | a key, a delay and a two-letter text, traced event by event |
| Dispatch.SpaceIsPressedByName | kvm-sendkeys.js:131 | the space in `a b` is pressed as `Space` |
| Host.CheckHost | kvm-capture.js:17 | the left-to-right scan accepts exactly the non-empty strings over `[A-Za-z0-9_.\-:]` |
| Host.ValidHostIsBare | kvm-capture.js:16-17 | an accepted host contains no `/`, `@`, `?`, `#`, `;`, blank or backslash |
| Host.LoginUrlAuthority | kvm-capture.js:34 | for an accepted host, the authority of `https://host/` is exactly the host, and the URL contains no `@` |
| Host.HostExamples | kvm-sendkeys.js:21 | `10.0.0.5`, `bmc-host01` and `fe80::1` pass; the empty string, `10.0.0.5; rm -rf`, `http://evil/` and `user@host` fail |
| Polling.CheckRoundsShape | kvm-capture.js:42-46 | every session check follows a one-second pause; checks and pauses are equally many |
| Polling.SessionPollStopsAtFirstReady | kvm-capture.js:42-51 | the poll from a given check sees a full session exactly when some remaining check does, and it stops at the first one |
| Polling.SessionPollRun | kvm-capture.js:42-51 | 1 to 15 checks, each after a 1000 ms pause. Ready exactly when some of the 15 checks sees both `garc` and `features`, and then it stops at the first. Running out of checks takes all 15 and is not an error |
| Polling.Reading | kvm-capture.js:75-81 | a toggle reading records whether the text contains `Stop` and whether it contains `Start` |
| Polling.FailedRead | kvm-capture.js:75 | a failed read (the empty text) shows neither word |
| Polling.KvmPollStopsAtFirstStop | kvm-capture.js:74-86 | the poll from a given attempt is ready exactly when some remaining attempt shows `Stop`, and stops at the first |
| Polling.KvmPollReadsOncePerAttempt | kvm-capture.js:74-75 | one toggle read per attempt |
| Polling.KvmPollPacing | kvm-capture.js:85 | one pause per attempt that did not show `Stop` |
| Polling.KvmPollNoLateClick | kvm-capture.js:81-84 | no attempt after the first clicks the toggle |
| Polling.KvmPollClicks | kvm-capture.js:81-84 | the toggle is clicked once, right after the first read, exactly when that read shows `Start` but not `Stop` |
| Polling.KvmPollOnlyTouchesToggle | kvm-capture.js:74-86 | the poll only reads and clicks the toggle and pauses, and ends on the `Stop` read or on a pause |
| Polling.KvmPollRun | kvm-sendkeys.js:108-116 | 1 to 15 attempts. Ready exactly when some of the 15 readings shows `Stop`, and then it stops at the first. Not ready means all 15 attempts were spent |
| Polling.KvmPollRunEvents | kvm-sendkeys.js:108-116 | one read per attempt, a pause after every read without `Stop`, at most one click, and the click happens exactly when the first read shows `Start` without `Stop` |
| Polling.KvmPollExamples | kvm-capture.js:74-86 | `Stop` at once means one read and no pause. `Start`, then nothing, then `Stop` means a click and three reads |
| Polling.ToggleLabels | kvm-capture.js:76-81 | `Stop KVM` reads as stop only and `Start KVM` as start only |
| Teardown.TeardownMeaning | kvm-capture.js:97-113 | the stream is stopped exactly when the toggle reads `Stop`. The 2000 ms pause follows unless the evaluation threw. The viewer is closed once, then the session with the login's token is deleted once, last, whatever the stop step did |
| Teardown.TeardownExamples | kvm-sendkeys.js:153-169 | the clean-up traces for a running stream (`Stop KVM`, clicked), a stopped one (`Start KVM`, left alone), a missing toggle and a failing evaluation |
| Browser.SessionPhase | kvm-capture.js:32-54 | login comes first and the token read last, with only session checks and pauses in between |
| Capture.CaptureExitStatus | kvm-capture.js:10-117 | exit status 0 exactly when the arguments, host, login, token and viewer all went through, and 1 otherwise |
| Capture.CaptureHostGate | kvm-capture.js:10-20 | a missing argument or a rejected host exits 1 before the browser does anything |
| Capture.CaptureFailureScreenshot | kvm-capture.js:53-117 | every failure after the host check ends with a screenshot of the main page, deletes no session and closes no viewer. With no token the viewer is never opened |
| Capture.ViewerPhaseShape | kvm-capture.js:88-105 | in the viewer the screenshot comes once, after the settle pause exactly when the stream came up, and the clean-up follows it |
| Capture.CaptureSuccessShape | kvm-capture.js:88-113 | on success the viewer screenshot is taken whether or not the stream came up. The 2000 ms settle pause comes right before it exactly when the poll saw `Stop`. The clean-up follows it, and nothing before it is a screenshot or a delete |
| Capture.CaptureDeletesOwnSession | kvm-capture.js:106-112 | the only session ever deleted is the one whose `garc` token was read after login |
| SendKeys.SendKeysExitStatus | kvm-sendkeys.js:13-117 | exit status 0 exactly when the keys were played, which needs arguments, host, login, token, viewer and a KVM stream, and 1 otherwise |
| SendKeys.SendKeysHostGate | kvm-sendkeys.js:13-24 | a missing argument (an empty key string included) or a rejected host exits 1 before the browser does anything |
| SendKeys.FailureIsQuiet | kvm-sendkeys.js:96-117 | a failed run presses no key, takes no screenshot, deletes no session, closes no viewer and never clicks the canvas |
| SendKeys.SendKeysPresses | kvm-sendkeys.js:117-149 | the presses are exactly the key stream of the parsed key string when the stream came up, and none otherwise; the canvas is clicked exactly in the first case |
| SendKeys.SendKeysNoScreenshot | kvm-sendkeys.js:72-179 | the key-sending script never takes a screenshot |
| SendKeys.SendKeysCleanUp | kvm-sendkeys.js:117-169 | on failure the viewer is not closed and the session not deleted, because `process.exit` leaves at once. On success the clean-up trace comes last |

## Code as written

Three behaviours of the code that are easy to get wrong:

- A combo is one `+`-joined string handed to the driver's press call (kvm-sendkeys.js:57), not a list of key names. `KeyParser.ComboDirective` states that splitting that string gives back the segments.
- A delay is not necessarily at least 0. `parseInt` of the suffix is kept when it is non-zero, so `{Delay:-5}` is a delay of -5 (kvm-sendkeys.js:54). A suffix such as `5+x` reads as 5.
- There is no dispatch error and no failed-action index. A failing press propagates to the script's outer `catch`, which exits 1 (kvm-sendkeys.js:170-172).

## Left out

- Browser I/O is not executed; it is represented only by its answers. Page navigation, selectors, `fetch` and real timers become the fields of `Browser.Observations` and the events of `Trace.Event`. Each wait is an event carrying its length.
- The argument handling is modelled; the rest of the process plumbing is not. `process.argv` is the `args` parameter, and an `undefined` argument is modelled as `""`, which is just as falsy. `process.exit` is the exit status of `Browser.Run`. `BMC_DEBUG` logging and the `getuid` sandbox flag are left out, because they decide nothing the model states.
- Starting the browser is not modelled. `chromium.launch`, `newContext` and `newPage` (kvm-capture.js:27-29, kvm-sendkeys.js:73-75) sit outside the `try`; if one of them fails, the top-level `.catch` (kvm-capture.js:121-124, kvm-sendkeys.js:176-179) exits 1 with no login and no screenshot. Every accepted run of the model starts with a browser that is up.
- `browser.close()` in `finally` (kvm-capture.js:119, kvm-sendkeys.js:174) is not modelled. If it rejects, the same top-level `.catch` turns the exit status into 1, even after a run that succeeded.
- Capture.CaptureExitStatus: states the exit status for a browser that starts and closes cleanly; a failing launch or `browser.close()` exits 1 regardless, as the two lines above say.
- SendKeys.SendKeysExitStatus: states the exit status for a browser that starts and closes cleanly; a failing launch or `browser.close()` exits 1 regardless.
- A `Screenshot` event is the request for a screenshot. Whether the file gets written is left out: the screenshot in the outer `catch` (kvm-capture.js:116) swallows its own failure.
- `viewer.waitForLoadState` (kvm-capture.js:70, kvm-sendkeys.js:107) is left out. Its failure is caught and ignored, so it changes no decision.
- Exceptions thrown in the middle of the key loop are not modelled. A rejected `keyboard.press` or `waitForTimeout` (kvm-sendkeys.js:126-149) would jump to the outer `catch` and exit 1. The model assumes these calls return, and models only the failures of login, the token and the viewer popup.
- The screenshot in the outer `catch` of kvm-capture.js (line 116) is modelled only for failures at the login page and the viewer popup. Failures of other awaited calls are left out, for the same reason.
- `parseInt` is modelled over unbounded integers. The rounding of values beyond 2^53 to floating point is left out.
- A negative delay is kept, as the code keeps it. What `waitForTimeout` does with it is browser behaviour and is not modelled.
- Strings are sequences of characters, so the difference between UTF-16 code units and code points in `for (const ch of action.value)` (kvm-sendkeys.js:130) is not modelled.
- KeyMap.Resolve: `KEY_MAP` is a plain finite map. The object-prototype quirk is not modelled: `{toString}` or `{constructor}` would look up an inherited function, which is truthy.
- There is no failed-action index and no dispatch error type, because the code has none.
- The combo payload is modelled as the code builds it: a single `+`-joined string handed to `keyboard.press`, not a list of key names.
