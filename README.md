# YouTube ad mute & speed-up: a Dafny model of the content script

The content script polls the page. On each tick it decides whether an ad is
playing in the current player. What counts as evidence: the player's
`ad-showing` / `ad-interrupting` class, or a visible skip or countdown control
inside that player. While an ad plays, the script forces the video to a high
playback rate and mutes it. It remembers the viewer's rate and mute, and which
of the two it actually changed. It can also click a skip control, or failing
that a next control, at most once every 120 ms. After seven consecutive
ad-free ticks it undoes exactly what it forced.

The model is split by component:

- `Settings` holds the three settings, fixed for the session.
- `Text` models `trim()` and `toLowerCase()` as used on button labels.
- `Dom` is one tick's snapshot: element records (box, computed style,
  attributes) and player subtrees. A player records its class list, the first
  match of each selector, and the fallback candidates in document order.
  `Dom` also holds `isVisible`, `isClickable` and the label choice.
- `Detection` holds the ad classifiers. The early-return selector loop is a
  `while` method.
- `Override` is the controller as functions over the cells and the video's
  rate and mute. `Writes` says whether the element accepts each property
  write; this stands in for the `try {} catch {}` around every write.
- `Dismissal` holds the skip/next search, the click rate limit and the event
  order.
- `Monitor` is the tick as a function. `Run` chains ticks on a viewer who does
  not touch the controls.
- `ContentScript` has two classes. `Video` has mutable `playbackRate` and
  `muted`. `AdMonitor` holds the module-level `let` cells. Each of its methods
  is proved to change the state exactly as the matching function above does.

Rates are exact `real`s, and the source's 0.001 tolerance is kept. The
`|| 1.0` in both rate guards is kept: a rate of 0 is compared as if it were 1.
`Date.now()` is the `now` parameter.

The source's own comments promise two things. Every query is scoped to
"THIS player's subtree" (content.js:47). Restoring waits for "must-be-clean"
checks (content.js:7, 213-215). Where the code does something slightly
different, the model follows the code:

- The player is the video's enclosing player. If there is none, it is the
  first player anywhere on the page (content.js:49). So the scoping is not
  strict: without an enclosing player another player's evidence is used.
- With no player, a tick counts as clean (content.js:217).
- The clean-tick counter keeps growing outside an ad. It is reset only by ad
  ticks.
- Restoring fires when the counter is `>= 7`.
- The clean check is not stricter than the ad check. On one snapshot "clean
  enough" is exactly "not showing" (`Detection.CleanIsNotShowing`). So the
  counter reset at content.js:243-245, commented "Not clean, reset counter",
  is unreachable. The pure `Monitor.Tick` keeps that branch as written. In
  the `AdMonitor.Tick` method it is an `assert false` with a comment.

## Model

| member | source | states |
|---|---|---|
| `Text.Trim` | content.js:163 | the trimmed label has no leading or trailing ECMAScript white space; it is empty exactly when the label is all white space |
| `Text.TrimSplit` | content.js:163 | trimming removes a run of white space at each end and nothing else: the label is space + result + space |
| `Text.ToLower` | content.js:163 | lowercasing keeps the length and maps each character through the ASCII case mapping |
| `Dom.IsVisible` | content.js:52-58 | visible means positive width and height, visibility not `hidden`, display not `none`, opacity not `0` |
| `Dom.IsClickable` | content.js:135-143 | clickable means visible, no `disabled` attribute, `aria-disabled` not `true`, pointer-events not `none` |
| `Dom.Label` | content.js:163 | the label is the aria-label when non-empty, else the text content |
| `Dom.PlayerFor` | content.js:46-50 | the player is the video's enclosing player, falling back to the first player on the page |
| `Detection.ClassSaysAd` | content.js:60-63 | the class list contains `ad-showing` or `ad-interrupting` |
| `Detection.PlayerHasAdUi` | content.js:65-78 | true iff a player is present and one of the three ad-only selectors has a visible first match; the loop tries them in order |
| `Detection.IsAdShowingScoped` | content.js:80-87 | an ad is showing iff a player resolves and its class says ad or its ad-only UI is visible |
| `Detection.AdCleanEnoughToRestore` | content.js:212-221 | clean iff no player resolves, or it has neither the class marker nor visible ad UI |
| `Detection.CleanIsNotShowing` | content.js:237-246 | on one snapshot, clean is exactly not-showing, so the reset branch never runs |
| `Detection.VerdictScopedToEnclosingPlayer` | content.js:46-50 | with an enclosing player, the verdict depends on that player alone, whatever else the page holds |
| `Detection.VerdictFallsBackToPagePlayer` | content.js:49 | without an enclosing player the page-wide player decides the verdict |
| `Detection.VisibleAdUiIsAnAd` | content.js:84-85 | a visible skip/countdown control is an ad tick even without the class marker |
| `Detection.IsAdShowing` | content.js:80-87 | the ad verdict: a player resolves and its class says ad or one of its ad-only controls is visible; `Monitor.Tick` branches on it |
| `Detection.CleanEnough` | content.js:212-221 | the restore verdict: no player resolves, or it has neither the class marker nor visible ad UI |
| `Override.ClampRate` | content.js:89-91 | the result lies in [0.1, 16], equals the input inside that range and the nearer bound outside it |
| `Override.TargetAdSpeed` | content.js:92-94 | the target is 16 with the maximum setting, the configured speed otherwise |
| `Override.DesiredRate` | content.js:108 | the forced rate lies in [0.1, 16], is 16 when the maximum is set, and is the configured speed when that is in range |
| `Override.DefaultsPlayAdsAtMax` | content.js:10-15 | with the initial settings ads are forced to 16x; with the maximum switched off they play at the default speed of 4x |
| `Override.Remember` | content.js:96-102 | saves the video's rate and mute exactly and clears both forced flags |
| `Override.Apply` | content.js:104-116 | the override is on afterwards. The viewer's values are captured only on entering an ad. The rate changes only by an accepted write made because the rate, read with 0 as 1, is more than 0.001 from the desired rate, and then to the desired rate. Mute changes only by an accepted write on an unmuted video, and then to true. With accepted writes the video is muted and, as the code compares rates, at the desired rate. A forced flag is raised exactly when a write changed that property, and stays raised |
| `Override.Restore` | content.js:118-131 | always clears the override and both flags and keeps the saved values. The rate changes only by an accepted write, only if it was forced and, read with 0 as 1, is more than 0.001 from the saved rate, and then back to the saved rate. Unmuting happens only by an accepted write, if mute was forced, the video is muted and the viewer was unmuted before. With accepted writes those guards are also sufficient. A viewer muted before the ad stays muted |
| `Override.ApplyIdempotent` | content.js:104-116 | once an application's writes were accepted, applying again changes nothing |
| `Override.ZeroRateIsNotForced` | content.js:109 | a rate of 0 read as 1 against a desired rate of 1 is left at 0 and not marked forced |
| `Override.EnterIsRestorable` | content.js:104-116 | the first application of an ad establishes the restorable relation to the viewer's values |
| `Override.ApplyKeepsRestorable` | content.js:104-116 | a later application in the same ad keeps that relation |
| `Override.ApplyAllKeepsRestorable` | content.js:104-116 | any number of later applications keep it |
| `Override.RestoreUndoes` | content.js:118-131 | restoring from the restorable relation with accepted writes gives back the viewer's rate and mute exactly |
| `Override.ApplyRestoreRoundTrip` | content.js:96-131 | from outside an ad, one or more applications and a restore with accepted writes return rate and mute to their pre-ad values, whatever the applications' writes did |
| `Override.MutedViewerStaysMuted` | content.js:124 | a viewer muted before the ad is never marked as force-muted and is still muted after the restore, whatever writes were accepted |
| `Dismissal.FirstClickableMatchIsFirst` | content.js:155-158 | the selector search succeeds iff some selector's first match is clickable, and returns the match of the first such selector in list order |
| `Dismissal.SaysSkipSimplified` | content.js:164 | the `skip ads` alternative is redundant: accepted labels are `skip` or start with `skip ad` or `skip trial` |
| `Dismissal.FirstSkipLabelledIsFirst` | content.js:160-167 | the text fallback returns the first candidate in document order that is clickable and whose trimmed, lowercased label says skip, or nothing if none is |
| `Dismissal.SelectorsBeforeLabels` | content.js:155-167 | the text fallback is used only when no selector has a clickable match |
| `Dismissal.SkipButton` | content.js:145-169 | the selector search result when it finds something, otherwise the label fallback result; characterised by `FirstClickableMatchIsFirst`, `FirstSkipLabelledIsFirst` and `SelectorsBeforeLabels` |
| `Dismissal.SkipButtonIsClickable` | content.js:145-169 | whatever the skip search returns is clickable |
| `Dismissal.FindSkipButtonScoped` | content.js:145-169 | the two early-return loops return nothing without a player and otherwise the selector-then-label search result |
| `Dismissal.NextButton` | content.js:171-176 | a next control is returned iff the next selector's first match is clickable, and it is that match |
| `Dismissal.ClickSequence` | content.js:189-193 | one click is five steps on the same element, in this order: mouseover, mousedown, mouseup, `click()`, click event |
| `Dismissal.HumanClick` | content.js:178-196 | fires iff an element is given and at least 120 ms have passed since the last click; then it records now and dispatches the sequence, otherwise it changes and dispatches nothing |
| `Dismissal.ClicksAreSpaced` | content.js:181-182 | two attempts less than 120 ms apart fire at most one click sequence |
| `Dismissal.AutoSkipOrNext` | content.js:198-208 | nothing without auto-skip or a player; otherwise a click attempt on the skip control if one is found, else one on the next control; characterised by the six lemmas after it |
| `Dismissal.NoAutoSkipNoClick` | content.js:199 | with auto-skip off nothing is dispatched and the rate limit is untouched |
| `Dismissal.NoPlayerNoClick` | content.js:200-201 | without a player nothing is dispatched and the rate limit is untouched |
| `Dismissal.SkipBeforeNext` | content.js:203-204 | when a skip control is found, it is clicked exactly when 120 ms have passed since the last click, and then the whole sequence goes to it and the time is recorded; otherwise nothing is dispatched |
| `Dismissal.NextOnlyWithoutSkip` | content.js:206-207 | without a skip control, the next control is clicked iff it is clickable and 120 ms have passed since the last click; a click sends it the whole sequence and records the time, otherwise nothing is dispatched and the last-click time is kept |
| `Dismissal.AttemptsAreSpaced` | content.js:181-182 | two dismissal attempts less than 120 ms apart, on any players, dispatch at most one click sequence between them |
| `Dismissal.ClickedTargetIsClickable` | content.js:198-208 | an attempt dispatches nothing or one full click sequence on one clickable element |
| `Monitor.Tick` | content.js:223-248 | an ad tick resets the counter, turns the override on, leaves the cells and video `Override.Apply` gives, and dispatches what `Dismissal.AutoSkipOrNext` does. Only ad ticks try to dismiss. A tick without an ad changes the cells and video only by the `Override.Restore` of a clean tick that brings the counter to 7 during an ad |
| `Monitor.InitialInv` | content.js:17-23 | the initial cells satisfy the invariant |
| `Monitor.TickKeepsInv` | content.js:227-247 | every tick keeps the invariant: no forced flag is set outside an ad, and the counter is below 7 during an ad |
| `Monitor.CaptureOncePerAd` | content.js:106 | the saved viewer values change only on the tick that starts an ad, and then to that tick's video values |
| `Monitor.NormalTickIsQuiet` | content.js:236-242 | outside an ad, a tick without an ad changes neither the cells nor the video and dispatches nothing; only the counter grows |
| `Monitor.CleanTicksKeepOverride` | content.js:237-242 | during an ad, clean ticks that do not complete the streak leave the override, the cells and the video untouched |
| `Monitor.SeventhCleanTickRestores` | content.js:238-242 | after an ad tick, the override survives 6 or fewer clean ticks and ends on exactly the 7th, with that tick's restore |
| `Monitor.AdTicksKeepRestorable` | content.js:232-235 | consecutive ad ticks keep the restorable relation and leave the counter at 0 |
| `Monitor.AdCycleRoundTrip` | content.js:223-248 | from normal playback, one or more ad ticks then seven clean ticks, the last with accepted writes, leave the video exactly at its pre-ad rate and mute and the script in normal mode |
| `ContentScript.AdMonitor.constructor` | content.js:17-24 | the cells start inactive with rate 1.0, unmuted, no forced flags, counter 0, last click 0 |
| `ContentScript.AdMonitor.RememberUserState` | content.js:96-102 | the cells become `Override.Remember` of the old cells and the video; nothing else changes |
| `ContentScript.AdMonitor.ApplyAdMode` | content.js:104-116 | with no video nothing changes; otherwise cells and video become `Override.Apply` of their old values |
| `ContentScript.AdMonitor.RestoreUserMode` | content.js:118-131 | with no video nothing changes; otherwise cells and video become `Override.Restore` of their old values |
| `ContentScript.AdMonitor.SimulateHumanClick` | content.js:178-196 | the result, the last-click time and the appended events are those of `Dismissal.HumanClick` |
| `ContentScript.AdMonitor.TryAutoSkipOrNext` | content.js:198-208 | the last-click time and the appended events are those of `Dismissal.AutoSkipOrNext` on the tick's player |
| `ContentScript.AdMonitor.Tick` | content.js:223-248 | with no video nothing changes; otherwise the state, the video and the appended events are those of `Monitor.Tick` |

## Left out

- Configuration loading (`loadConfig`, `chrome.storage`, content.js:28-39) is asynchronous storage I/O. The configuration is a constructor parameter of `AdMonitor`.
- `installObservers`, `setInterval`, `setTimeout` and `main` (content.js:250-271) are event and timer plumbing. `AdMonitor.Tick` is the single entry point.
- `getMainVideo` (content.js:41-44) is a document query. Its result is the `video` argument of `AdMonitor.Tick`, `null` when there is none.
- The DOM queries (`querySelector`, `closest`, `getBoundingClientRect`, `getComputedStyle`) are replaced by one `Dom.Page` snapshot per tick. The DOM does not change between the lookups of one tick. The snapshot is not required to be self-consistent; for example, a `button.ytp-ad-skip-button` match need not also be the `.ytp-ad-skip-button` match.
- The click coordinates and the `MouseEvent` options (content.js:184-187) are float geometry and browser API calls. Only the event kinds and their target are recorded.
- Element identity is not modelled: a `Dom.Element` is a value, so two controls with the same attributes, the same label and the same geometry cannot be told apart in a recorded `Dismissal.Dispatch`.
- Exceptions thrown by a dispatch step (content.js:189-193) are not modelled: every step is always attempted and recorded.
- `log` and `DEBUG` (content.js:11, 26) are console output.
- options.js is the settings form: element lookups, a click handler and storage reads and writes. It holds no state-machine logic.
- `Text.ToLower`: maps only the ASCII letters. `toLowerCase` maps all of Unicode, so a label spelled with, say, the Kelvin sign is not modelled as lowercasing to `k`.
- `Override.Apply`: states closeness to the desired rate on the rate as the code compares it (0 read as 1), not on the raw rate. `Override.ZeroRateIsNotForced` shows the raw rate can stay 0.
- Floating point is not modelled: rates are exact reals, NaN does not occur, and the host never silently rounds or clamps an accepted rate.
- A rejected property write leaves the property unchanged. A host that accepts a write but stores another value is not modelled.
- The `?? 1.0` and `!!` of `rememberUserState` (content.js:97-98) are not modelled: its only caller, `applyAdMode`, returns on a null video before calling it (content.js:105-106), and a video element always has a rate, so `AdMonitor.RememberUserState` takes a non-null `Video`.
- The `Monitor.Run` lemmas assume a viewer who does not touch the controls during the cycle. The class methods themselves take any video state.
- The clean-tick counter is an unbounded integer. The loss of precision of a JavaScript number after 2^53 ticks is not modelled.
