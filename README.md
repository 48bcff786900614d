# Transcription viewer core, modelled in Dafny

This project models the logic core of the AI-transcribtor front end. The front end takes a
YouTube link, asks a back end to transcribe the video, and shows the time-aligned segments
next to an embedded player. The model covers the following parts:

- **Time helpers** (`timeUtils.ts`). `formatSecondsToMMSS` renders a number of seconds as
  `MM:SS`. `timeToSeconds` reads `MM:SS` or `HH:MM:SS` back.
- **URL helpers** (`urlUtils.ts`). They extract a video id from the five supported link
  shapes in order, validate 11-character ids, and build the watch, thumbnail and
  transcription-page URLs. On an invalid id the builders throw, modelled as a `Failure`.
- **Player synchronisation** (`useVideoPlayer.ts`). A polling tick finds the segment that
  holds the player's position. The last segment is closed and gets 0.5 s of slack. The hook
  also has seek, next, previous, slider and play/pause handlers. The player is a
  duck-typed handle: every method it may lack is a capability flag. The calls the hook makes
  on it are appended to a command log.
- **Keyboard controls** (`useKeyboardControls.ts`). ArrowLeft, ArrowRight and Space map to
  previous, next and play/pause, except when focus is in a text field.
- **Transcription orchestrator** (`useTranscription.ts`). Each change of video or language
  starts a fetch cycle: estimate, then transcript, then vocabulary and summary in the
  background. A progress timer counts up to the estimate. A class holds the hook's single
  state record and a log of runs. Each asynchronous completion is a method naming the run it
  belongs to.

Modules: `Wrappers` (Option, Result), `TimeUtils`, `UrlUtils`, `TranscriptionTypes`,
`KeyboardControls`, `VideoPlayer`, `Transcription`.

The code's behaviour is followed where it differs from what one might expect of such a hook:

- Answers from a superseded run are not discarded. A late transcript from the previous
  video replaces the segments, and that run's `finally` clears `loading` while the new run
  is still waiting (`Transcription.StaleTranscriptApplies`).
- A superseded run whose estimate arrives after the switch still starts its timer. The
  cleanup ran before there was a timer to clear (`Transcription.StaleTimerRuns`).
- Starting a cycle resets neither `currentSegment` nor `summaryLoading`. After a switch
  to a shorter transcript, the current index can lie past the end.
- The mobile pattern `m.youtube.com/watch?v=` can never decide a match. Every string it
  matches is already matched by the earlier `youtube.com/watch?v=` pattern
  (`UrlUtils.MobilePatternRedundant`).

## Model

| member | source | states |
|---|---|---|
| TimeUtils.FormatSecondsToMMSS | src/services/utils/timeUtils.ts:4-15 | a negative input gives `00:00`; otherwise the minutes (`seconds / 60`) and the seconds (`seconds % 60`), each rendered in decimal and zero-padded to at least two digits, joined by `:` |
| TimeUtils.DigitsValue | src/services/utils/timeUtils.ts:23 | `Number` of a digit-string part: its decimal value, with the empty part read as 0; fixed by `ShowNat` (its inverse) and `LeadingZero` |
| TimeUtils.ShowNat | src/services/utils/timeUtils.ts:12-13 | `String(n)` of a natural number is a non-empty digit string with no leading zero whose decimal value is `n` |
| TimeUtils.PadStart2 | src/services/utils/timeUtils.ts:12-13 | `padStart(2, '0')` keeps a string of length two or more, and otherwise fills zeros in front up to length two |
| TimeUtils.Field | src/services/utils/timeUtils.ts:12-13 | a padded field is a digit string of length at least two with value `n`, exactly two digits below 100 |
| TimeUtils.Split | src/services/utils/timeUtils.ts:23 | `split(':')` gives at least one part; no part contains `:`; the parts of a time text are digit strings |
| TimeUtils.JoinSplit | src/services/utils/timeUtils.ts:23 | joining the parts of `split(':')` with `:` gives back the input |
| TimeUtils.TimeToSeconds | src/services/utils/timeUtils.ts:20-33 | `timeToSeconds` on a time text: the empty text is 0, two parts are `M*60 + S`, three are `H*3600 + M*60 + S`, any other count is 0; stated for all inputs by `ParseTwoParts`, `ParseThreeParts`, `ParseOtherShapes` and `RoundTrip` |
| TimeUtils.ParseTwoParts | src/services/utils/timeUtils.ts:24-27 | `M:S` is read as `M*60 + S` |
| TimeUtils.ParseThreeParts | src/services/utils/timeUtils.ts:28-31 | `H:M:S` is read as `H*3600 + M*60 + S` |
| TimeUtils.ParseOtherShapes | src/services/utils/timeUtils.ts:22-32 | the empty string, and any string with a part count other than 2 or 3, is read as 0 |
| TimeUtils.ParseMinutesSeconds | src/services/utils/timeUtils.ts:24-27 | example: `01:30` is 90 seconds |
| TimeUtils.ParseHoursMinutesSeconds | src/services/utils/timeUtils.ts:28-31 | example: `01:02:03` is 3723 seconds |
| TimeUtils.ParseSinglePart | src/services/utils/timeUtils.ts:32 | example: a single part such as `42` is read as 0 |
| TimeUtils.FormatHundredMinutes | src/services/utils/timeUtils.ts:10-14 | example: 6000 seconds are shown as `100:00`, so minutes are not capped at two digits (the value is a parameter fixed by `requires` to keep the verifier from unfolding the literal call) |
| TimeUtils.FormatNegative | src/services/utils/timeUtils.ts:6-9 | example: `-5` is shown as `00:00`, one instance of the first postcondition of `FormatSecondsToMMSS` |
| TimeUtils.ParseClock | src/services/utils/timeUtils.ts:24-27 | any text that shows minutes and seconds is read back as `minutes*60 + secs` |
| TimeUtils.RoundTrip | src/services/utils/timeUtils.ts:4-33 | parsing the formatted text of any natural number of seconds gives that number back |
| TimeUtils.TwoDigitsCanonical | src/services/utils/timeUtils.ts:12-13 | the padded field of a two-digit string's value is that string |
| TimeUtils.FormatAfterParse | src/services/utils/timeUtils.ts:4-33 | a two-digit `MM:SS` text with seconds below 60 formats back to itself after parsing |
| UrlUtils.IsJsWhitespace | src/services/utils/urlUtils.ts:18 | the characters `trim()` removes: ECMAScript white space and line terminators |
| UrlUtils.TrimStart | src/services/utils/urlUtils.ts:18 | drops leading white space; its meaning is stated by `TrimStartSpec` |
| UrlUtils.TrimEnd | src/services/utils/urlUtils.ts:18 | drops trailing white space; its meaning is stated by `TrimEndSpec` |
| UrlUtils.Trim | src/services/utils/urlUtils.ts:18 | `trim()`: both ends; its meaning is stated by `TrimSpec`, `TrimmedIsFixed` and `TrimIdempotent` |
| UrlUtils.TrimStartSpec | src/services/utils/urlUtils.ts:18 | trimming the front removes exactly a maximal whitespace prefix |
| UrlUtils.TrimEndSpec | src/services/utils/urlUtils.ts:18 | trimming the end removes exactly a maximal whitespace suffix |
| UrlUtils.TrimSpec | src/services/utils/urlUtils.ts:18 | `trim()` yields the input without its whitespace prefix and suffix, and the result starts and ends with a non-whitespace character |
| UrlUtils.TrimmedIsFixed | src/services/utils/urlUtils.ts:18 | a string with no whitespace at either end is unchanged by `trim()` |
| UrlUtils.TrimIdempotent | src/services/utils/urlUtils.ts:18 | trimming twice is trimming once |
| UrlUtils.IsValidYouTubeVideoId | src/services/utils/urlUtils.ts:51-61 | exactly 11 characters, each a letter, digit, `_` or `-`; the empty string is rejected by its length; it is the specification every extracted id meets (`ExtractYouTubeVideoId`, `ValidIdExtractsToItself`) |
| UrlUtils.FindFrom | src/services/utils/urlUtils.ts:21-37 | the unanchored search finds the leftmost position where the prefix is followed by 11 id characters, and reports none when there is no such position |
| UrlUtils.MatchPattern | src/services/utils/urlUtils.ts:21-37 | whatever a pattern captures is a valid video id |
| UrlUtils.FirstMatch | src/services/utils/urlUtils.ts:34-43 | whatever the loop over the patterns returns is a valid video id |
| UrlUtils.FirstMatchOrder | src/services/utils/urlUtils.ts:34-43 | the loop returns nothing exactly when no pattern matches; otherwise it returns the capture of the first pattern that matches |
| UrlUtils.FirstMatchSkip | src/services/utils/urlUtils.ts:34-43 | a pattern that does not match can be dropped without changing the result |
| UrlUtils.ExtractYouTubeVideoId | src/services/utils/urlUtils.ts:10-44 | an empty input gives null; any id returned is a valid 11-character id |
| UrlUtils.MobileImpliesWatch | src/services/utils/urlUtils.ts:23-29 | a string that the mobile pattern matches is also matched by the watch pattern |
| UrlUtils.MobilePatternRedundant | src/services/utils/urlUtils.ts:21-43 | removing the mobile pattern from the list never changes the extracted id |
| UrlUtils.ValidIdExtractsToItself | src/services/utils/urlUtils.ts:18-43 | an input whose trimmed form is a valid id extracts to that id: no earlier pattern can fire on it |
| UrlUtils.BuildYouTubeWatchUrl | src/services/utils/urlUtils.ts:68-76 | it fails exactly for invalid ids; otherwise the URL is the watch prefix followed by the id |
| UrlUtils.PrefixedIdFound | src/services/utils/urlUtils.ts:23-36 | an id right after the prefix is found there when the prefix's first character does not occur earlier |
| UrlUtils.WatchUrlRoundTrip | src/services/utils/urlUtils.ts:10-76 | for a valid id, extracting from the built watch URL gives the id back |
| UrlUtils.ExtractByFirstPattern | src/services/utils/urlUtils.ts:18-40 | a trimmed input that the first pattern matches extracts to that pattern's capture |
| UrlUtils.WatchUrlTrimmed | src/services/utils/urlUtils.ts:75 | a built watch URL has no whitespace to trim |
| UrlUtils.WatchUrlMatchesWatchPattern | src/services/utils/urlUtils.ts:75 | the watch pattern captures the id from a built watch URL |
| UrlUtils.ThumbnailFile | src/services/utils/urlUtils.ts:91-98 | the quality map: `default.jpg`, `mqdefault.jpg`, `hqdefault.jpg`, `sddefault.jpg`, `maxresdefault.jpg`; distinct qualities give distinct files (`ThumbnailUrlDeterminesArguments`) |
| UrlUtils.BuildYouTubeThumbnailUrl | src/services/utils/urlUtils.ts:84-101 | it fails exactly for invalid ids; otherwise the URL is the image host, the id and the file for the quality |
| UrlUtils.ThumbnailDefaultIsHigh | src/services/utils/urlUtils.ts:84-95 | the default quality is `high`, that is `hqdefault.jpg` |
| UrlUtils.ThumbnailUrlDeterminesArguments | src/services/utils/urlUtils.ts:91-100 | different ids or qualities give different thumbnail URLs |
| UrlUtils.BuildTranscriptionUrl | src/services/utils/urlUtils.ts:132-147 | it fails exactly for invalid ids; with no language or an empty one the URL is the page path plus the id; otherwise `?lang=` and the encoded language are appended |
| UrlUtils.TranscriptionUrlQuery | src/services/utils/urlUtils.ts:139-146 | the URL starts with the page path and the id, and contains `?` exactly when a non-empty language is given |
| KeyboardControls.IsTextEntry | src/components/transcription/hooks/useKeyboardControls.ts:15-17 | a present target whose tag is `INPUT`, `SELECT` or `TEXTAREA`, or which is contenteditable; a missing target is not one |
| KeyboardControls.HandleKeyDown | src/components/transcription/hooks/useKeyboardControls.ts:13-39 | default is prevented exactly when an action runs; nothing runs in an input, select, textarea or contenteditable target; an action runs only for its own key |
| KeyboardControls.KeyDispatch | src/components/transcription/hooks/useKeyboardControls.ts:22-38 | outside a text field, each of the three keys runs its action with default prevented, and any other key does nothing |
| KeyboardControls.SpaceInInputIgnored | src/components/transcription/hooks/useKeyboardControls.ts:17-20 | Space typed into an input, select or textarea is left alone |
| VideoPlayer.Covers | src/components/transcription/hooks/useVideoPlayer.ts:93-114 | segment `i` holds time `t`: `start <= t < end`, or `start <= t <= end + 0.5` for the last segment, with both times read by `timeToSeconds` |
| VideoPlayer.TickApplies | src/components/transcription/hooks/useVideoPlayer.ts:72-88 | a tick can move the index: a player with `getCurrentTime` and `getPlayerState`, a non-empty segment list, and state playing (1) or paused (2) |
| VideoPlayer.FirstCovering | src/components/transcription/hooks/useVideoPlayer.ts:90-115 | the result is the first index holding the time (half-open intervals, the last one closed with 0.5 s slack), or -1 when none does |
| VideoPlayer.FindSegment | src/components/transcription/hooks/useVideoPlayer.ts:90-115 | the loop returns the first segment holding the time, or -1 exactly when no segment holds it |
| VideoPlayer.SeekCommands | src/components/transcription/hooks/useVideoPlayer.ts:25-35 | nothing is sent without a player, a `seekTo` method or a segment at the index; otherwise a seek to the segment's start, then play exactly when the player can report a non-playing state and can play |
| VideoPlayer.ToggleCommands | src/components/transcription/hooks/useVideoPlayer.ts:137-151 | nothing is sent unless the player has all three methods; then exactly one command, pause when playing and play in every other state |
| VideoPlayer.TickIndex | src/components/transcription/hooks/useVideoPlayer.ts:72-121 | the index changes only when the effect runs and the player is playing or paused, and then to the first segment holding the position |
| VideoPlayer.TickIdempotent | src/components/transcription/hooks/useVideoPlayer.ts:117-120 | a second tick at the same position changes nothing |
| VideoPlayer.TickKeepsRange | src/components/transcription/hooks/useVideoPlayer.ts:117-120 | a tick keeps an in-range index in range |
| VideoPlayer.EarlierSegmentWins | src/components/transcription/hooks/useVideoPlayer.ts:91-115 | of two overlapping segments the earlier one is chosen |
| VideoPlayer.PlayerSync.constructor | src/components/transcription/hooks/useVideoPlayer.ts:13-16 | the hook starts with the given segments and index, no player and no commands |
| VideoPlayer.PlayerSync.OnPlayerReady | src/components/transcription/hooks/useVideoPlayer.ts:19-22 | the ready event's player is stored |
| VideoPlayer.PlayerSync.PlayerReports | src/components/transcription/hooks/useVideoPlayer.ts:85-86 | the stored player's state and position change; a missing player stays missing |
| VideoPlayer.PlayerSync.ReceiveSegments | src/components/transcription/hooks/useVideoPlayer.ts:8-9 | a new segment list leaves the current index as it was |
| VideoPlayer.PlayerSync.SeekToSegment | src/components/transcription/hooks/useVideoPlayer.ts:25-35 | the command log grows by exactly the seek commands |
| VideoPlayer.PlayerSync.HandleNextSegment | src/components/transcription/hooks/useVideoPlayer.ts:38-46 | below the last index it moves one on and seeks there; otherwise nothing changes; an in-range index stays in range |
| VideoPlayer.PlayerSync.HandlePrevSegment | src/components/transcription/hooks/useVideoPlayer.ts:48-56 | above index 0 it moves one back and seeks there; otherwise nothing changes; an in-range index stays in range |
| VideoPlayer.PlayerSync.HandleSliderChange | src/components/transcription/hooks/useVideoPlayer.ts:59-67 | only a first value inside the segment range is taken and sought to; an empty or out-of-range value changes nothing |
| VideoPlayer.PlayerSync.CheckPlayerTime | src/components/transcription/hooks/useVideoPlayer.ts:77-123 | one tick sets the index to the tick result and sends no command |
| VideoPlayer.PlayerSync.TogglePlayPause | src/components/transcription/hooks/useVideoPlayer.ts:137-151 | the command log grows by exactly the toggle commands |
| VideoPlayer.PlayerSync.KeyDown | src/components/transcription/hooks/useKeyboardControls.ts:13-39 | a key press runs the previous, next or toggle handler chosen by the keyboard decision: the new index and exactly the seek or toggle commands sent, nothing sent at a boundary, and nothing at all in a text field |
| Transcription.OrFallback | src/components/transcription/hooks/useTranscription.ts:134-146 | the rejection's `message` when it is non-empty, the fallback translation key otherwise (both `err.message` fallbacks) |
| Transcription.TickStep | src/components/transcription/hooks/useTranscription.ts:66-74 | a tick never passes the estimate; the timer keeps running exactly when one more second stays below it |
| Transcription.TicksFromZero | src/components/transcription/hooks/useTranscription.ts:64-75 | after `k` ticks from 0, elapsed is `min(k, estimate)`, and the timer is running exactly when `k` is below the estimate |
| Transcription.TicksBounded | src/components/transcription/hooks/useTranscription.ts:68-73 | elapsed stays between 0 and the estimate, and never exceeds the number of ticks |
| Transcription.TimerStops | src/components/transcription/hooks/useTranscription.ts:68-71 | once the tick count reaches the estimate, the timer has stopped on the estimate |
| Transcription.TranscriptionHook.constructor | src/components/transcription/hooks/useTranscription.ts:16-27 | the initial record: no segments, index 0, nothing loading, no error, estimate, vocabulary or summary |
| Transcription.TranscriptionHook.Cleanup | src/components/transcription/hooks/useTranscription.ts:161-164 | the previous effect's cleanup stops that run's timer and nothing else |
| Transcription.TranscriptionHook.Start | src/components/transcription/hooks/useTranscription.ts:29-53 | a missing or empty id only clears `loading`; otherwise the record is reset except `currentSegment` and `summaryLoading`, and a new run awaits its estimate; the previously active run loses its timer and every other run is unchanged |
| Transcription.TranscriptionHook.EstimateArrived | src/components/transcription/hooks/useTranscription.ts:58-76 | the estimate is stored, and the timer starts exactly when the estimate is positive |
| Transcription.TranscriptionHook.TimerTick | src/components/transcription/hooks/useTranscription.ts:64-75 | elapsed moves by one tick step and ends at or below that run's estimate; the timer stops when the estimate is reached |
| Transcription.TranscriptionHook.TranscriptArrived | src/components/transcription/hooks/useTranscription.ts:79-156 | the segments become the returned data or `[]`; vocabulary is requested; the summary is requested and `summaryLoading` raised exactly when there are segments; the timer stops and `loading` drops |
| Transcription.TranscriptionHook.FetchFailed | src/components/transcription/hooks/useTranscription.ts:141-156 | the error becomes the message or the fallback; no later stage starts; the timer stops and `loading` drops |
| Transcription.TranscriptionHook.VocabArrived | src/components/transcription/hooks/useTranscription.ts:84-96 | only array data is stored as the vocabulary; nothing else changes |
| Transcription.TranscriptionHook.VocabFailed | src/components/transcription/hooks/useTranscription.ts:97-100 | a vocabulary failure changes no field of the record |
| Transcription.TranscriptionHook.SummaryArrived | src/components/transcription/hooks/useTranscription.ts:108-128 | `summaryLoading` drops together with setting the summary text (string data) or the "unexpected" error |
| Transcription.TranscriptionHook.SummaryFailed | src/components/transcription/hooks/useTranscription.ts:129-137 | `summaryLoading` drops together with setting the summary error to the message or the fallback |
| Transcription.TranscriptionHook.SetCurrentSegment | src/components/transcription/hooks/useTranscription.ts:167-170 | only `currentSegment` changes |
| Transcription.StaleTranscriptApplies | src/components/transcription/hooks/useTranscription.ts:79-164 | a superseded run's late transcript still replaces the segments and clears `loading` while a newer run is active |
| Transcription.SwitchStopsTimer | src/components/transcription/hooks/useTranscription.ts:62-164 | switching video after the estimate arrived stops the first run's timer through the cleanup |
| Transcription.StaleTimerRuns | src/components/transcription/hooks/useTranscription.ts:62-164 | a superseded run whose estimate arrives after the switch starts a timer that runs beside the new run's |

## Left out

- `isValidUrl` and `parseQueryParams` (`urlUtils.ts`) are not part of this model. They need the platform URL parser.
- `TimeUtils.TimeToSeconds` is defined only on digit-and-colon texts (`TimeText`). JavaScript's `Number` of a part with whitespace, a sign, a fraction or other characters (`NaN`, `Infinity`), and non-string inputs, are not modelled.
- TimeUtils.FormatSecondsToMMSS, TimeUtils.ShowNat, TimeUtils.RoundTrip: whole numbers are unbounded. JavaScript numbers are doubles, so these hold there only for safe integers (below 2^53) and below 1e21, where `String` switches to exponent form; neither double precision nor the exponent form is modelled.
- Transcription.TickStep, Transcription.TranscriptionHook.TimerTick: elapsed time and the estimate are exact reals; double rounding is not modelled.
- `TimeUtils.FormatSecondsToMMSS` takes whole seconds. `NaN` and fractional inputs, and with them the `Math.floor` of a fractional remainder, are not modelled.
- `UrlUtils.BuildTranscriptionUrl` takes `encodeURIComponent` as a function parameter, so the encoding itself is not modelled.
- `UrlUtils.ExtractYouTubeVideoId` models the regular expressions by direct matching, and non-string inputs are not modelled.
- HTTP requests to the back end are not modelled. Their answers are method arguments: `result.data` present or absent, or a rejection message. A transcript answer with no `result` at all throws in the code, and is modelled as a `FetchFailed` with that error's message.
- Timers and animation frames (`setInterval`, `requestAnimationFrame`, their cancellation) are not modelled as such. Each firing is one method call. The change of the polling effect's cleanup between re-renders is not modelled.
- The text of translated messages is not modelled. The fallbacks are their translation keys.
- Console logging, React rendering and the memoisation of handlers (`useCallback`) are not modelled.
- Unmounting the hooks is not modelled.
- `VideoPlayer.PlayerSync.HandleSliderChange` takes integer slider values. A non-integer, and the `NaN` check on it, are not modelled.
- `VideoPlayer.TickApplies` assumes `getCurrentTime` returns a number, and `typeof` that value is not tested.
- The language dependency of the effect is an argument of `Start`, and is passed to no modelled request.
