# VoiceAssist tap-to-speech core, modelled in Dafny

VoiceAssist reads WhatsApp messages aloud. The user taps a message bubble.
The app finds the text of that bubble, cleans it, and hands it to the
browser's speech engine. The model proves three decision-making parts of
the app:

- **The tap handler of `useWhatsAppTTS`.** This covers the text cleanup
  (`extractMessageText`), the speech rule (`speakText`, `stopSpeaking` and the
  utterance callbacks), and the tap handler itself (`handleClick`). The tap
  handler has a listening/whitelist gate, a 500 ms debounce on the
  `lastClickTime` ref, and a search. The search walks up at most ten
  elements, then scans the tapped element's `span`/`div`/`p` descendants.
- **The whitelist gate of `useWhatsAppWhitelist`.** It normalises a phone
  number and checks it against the loaded list. It stores two
  `localStorage` keys. On the next session, it re-validates the stored
  record.
- **The handlers of the `Index` page.** These are the mode switch,
  start/stop listening, the verification change, the floating toggle, and
  the `isDisabled` expression passed to both controls.

Modules:

- `JsText` (JsText.dfy) holds the JavaScript string semantics the code relies on:
  - the `\s` class, which is also what `trim()` strips;
  - the ASCII `\d` class;
  - `length` in UTF-16 code units (`JsLength`: a character above U+FFFF
    counts twice);
  - the global `/\s+/g` replacement as a left-to-right scanner over
    maximal whitespace runs;
  - `trim()`.
- `MessageText` (MessageText.dfy) holds `extractMessageText`. Each of its
  three `replace` calls is a leftmost-first scanner:
  - The time-stamp pass takes, at each position, the match a backtracking
    engine finds. That is two hour digits before one, and a suffix of
    whitespace plus `AM`/`PM` before the bare meridiem before nothing.
    `TimeMatchAtLongest` proves this is the longest prefix the pattern
    matches.
  - The receipt pass deletes `✓✓` or `✓` at each position.
  - The whitespace pass replaces each run by one space and trims.
- `TapSearch` (TapSearch.dfy) holds an abstract document. Each element has
  a tag, an `innerText`, a `textContent`, a parent and its descendants in
  document order. The search is stated as functions over it: `Ancestry`,
  `FirstFit`, `TextContainers` and `Resolve`.
- `WhatsAppTts` (WhatsAppTts.dfy) holds the hook's mutable parts as
  classes:
  - The speech engine, with its queue of utterances.
  - The hook object, with `isPlaying` and `lastClickTime`. Its `while` and
    `for` loops are proved equal to the search functions. `HandleTap` is
    proved equal to `TapResult`, with the engine's new queue stated
    exactly.
- `Whitelist` (Whitelist.dfy) holds the number normalisation and the gate
  object. The gate's fields are the loaded list (`None` until loaded),
  `isWhitelisted`, `currentNumber`, and `localStorage` as a map.
- `IndexPage` (IndexPage.dfy) holds the page object with its state fields
  and handlers.

## Behaviour worth knowing

- **The cleanup is not idempotent.** Deleting a check mark can join two
  halves of a time stamp that the time-stamp pass had already passed
  over. `"1✓:23"` cleans to `"1:23"`, which cleans to `""`. See
  `MessageText.NotIdempotent`.
- **There is no "last matched element" memo.** Only the debounce keeps a
  tap from being spoken twice.
- **The descendant scan uses a window of (3, 500), not the ancestor
  window (3, 1000).**
- **Non-breaking spaces are not stripped on their own.** They belong to
  `\s`, so they are collapsed with the other whitespace.
- **A failed whitelist check never clears storage.** Only the restore
  effect removes a stale record.

## Model

| member | source | states |
|---|---|---|
| MessageText.TimeMatchAtLongest | src/hooks/useWhatsAppTTS.tsx:40 | the length matched at a position is the longest prefix that `\d{1,2}:\d{2}(\s?(AM\|PM))?` matches in full; 0 means no prefix matches |
| MessageText.SuffixAtLongest | src/hooks/useWhatsAppTTS.tsx:40 | the optional `(\s?(AM\|PM))?` group takes the longest prefix it can match |
| MessageText.StripTimesLeftmost | src/hooks/useWhatsAppTTS.tsx:40 | the pass keeps the text before the leftmost match, removes that match, and goes on right after it |
| MessageText.StripTimesCopies | src/hooks/useWhatsAppTTS.tsx:40 | a stretch with no match starting in it is copied unchanged |
| MessageText.StripTimesNoMatch | src/hooks/useWhatsAppTTS.tsx:40 | text with no match anywhere is left as it is |
| MessageText.StripTimesNoColon | src/hooks/useWhatsAppTTS.tsx:40 | text without a colon holds no time stamp and is left as it is |
| MessageText.StripTimesJsLength | src/hooks/useWhatsAppTTS.tsx:40 | the pass never lengthens the text in UTF-16 code units |
| MessageText.StripReceiptsDeletesChecks | src/hooks/useWhatsAppTTS.tsx:41 | `/✓✓?/g` deletes every check mark, single or doubled, and nothing else |
| MessageText.WithoutRemoves | src/hooks/useWhatsAppTTS.tsx:41 | after the deletion no check mark is left, and the text is not longer |
| MessageText.WithoutShrinks | src/hooks/useWhatsAppTTS.tsx:41 | the deletion does not lengthen the text in code units, and commutes with deleting whitespace |
| MessageText.WithoutAbsent | src/hooks/useWhatsAppTTS.tsx:41 | text without a check mark is left as it is |
| JsText.CollapseSpacing | src/hooks/useWhatsAppTTS.tsx:42 | after `/\s+/g` → `' '` no two whitespace characters are adjacent, and every whitespace character is U+0020 |
| JsText.CollapseLength | src/hooks/useWhatsAppTTS.tsx:42 | collapsing never lengthens the text, in characters or in code units |
| JsText.CollapseContent | src/hooks/useWhatsAppTTS.tsx:42 | collapsing keeps every non-whitespace character, in order |
| MessageText.CollapseKeepsAbsent | src/hooks/useWhatsAppTTS.tsx:42 | collapsing brings in no character other than U+0020: an absent character, whitespace such as a tab or NBSP included, stays absent |
| MessageText.CollapseOfCollapsed | src/hooks/useWhatsAppTTS.tsx:42 | text that is already single-spaced with plain spaces is left as it is |
| JsText.TrimSlice | src/hooks/useWhatsAppTTS.tsx:42 | `trim()` returns the slice between two all-whitespace margins |
| JsText.TrimEnds | src/hooks/useWhatsAppTTS.tsx:42 | `trim()` leaves no whitespace at either end |
| JsText.TrimContent | src/hooks/useWhatsAppTTS.tsx:42 | `trim()` keeps every non-whitespace character |
| JsText.TrimStartFacts | src/hooks/useWhatsAppTTS.tsx:42 | the leading trim drops a whitespace prefix, all of it |
| JsText.TrimEndFacts | src/hooks/useWhatsAppTTS.tsx:42 | the trailing trim drops a whitespace suffix, all of it |
| MessageText.CleanTextTrimmed | src/hooks/useWhatsAppTTS.tsx:40-42 | the cleaned text has no whitespace at either end |
| MessageText.CleanTextSpacing | src/hooks/useWhatsAppTTS.tsx:40-42 | the cleaned text has no two consecutive whitespace characters, and uses only U+0020 |
| MessageText.CleanTextNoReceipt | src/hooks/useWhatsAppTTS.tsx:40-42 | no check mark survives the cleanup |
| MessageText.CleanTextShorter | src/hooks/useWhatsAppTTS.tsx:40-42 | the cleaned text is never longer than the element's text, in characters or in code units |
| MessageText.CleanTextContent | src/hooks/useWhatsAppTTS.tsx:40-42 | apart from whitespace, the cleaned text is the time-stripped text with every check mark deleted, in order |
| MessageText.BubbleCleanup | src/hooks/useWhatsAppTTS.tsx:40-42 | a bubble made of a clock, ` AM`, `✓✓` and plain words cleans to exactly those words |
| MessageText.ExampleBubble | src/hooks/useWhatsAppTTS.tsx:40-42 | `"10:42 AM ✓✓ Hello there"` cleans to `"Hello there"` |
| MessageText.NotIdempotent | src/hooks/useWhatsAppTTS.tsx:40-42 | `"1✓:23"` cleans to `"1:23"`, and cleaning that again gives `""` |
| TapSearch.AncestryChain | src/hooks/useWhatsAppTTS.tsx:94-124 | the walk visits the target, then successive parents; at most ten elements; it stops early only at an element with no parent |
| TapSearch.FirstFitFirst | src/hooks/useWhatsAppTTS.tsx:107 | the index found fits the length window, and every earlier element fails it |
| TapSearch.FirstContainerFitFirst | src/hooks/useWhatsAppTTS.tsx:127-130 | the first descendant that is a `span`/`div`/`p` and fits; every earlier container fails |
| TapSearch.ContainersInOrder | src/hooks/useWhatsAppTTS.tsx:127-130 | scanning the `querySelectorAll('span, div, p')` list in order finds the first container, in document order, that fits |
| TapSearch.ResolveAncestorWhen | src/hooks/useWhatsAppTTS.tsx:97-124 | the walk finds an element exactly when some examined element's cleaned text is strictly between 3 and 1000 code units |
| TapSearch.ResolveAncestorNearest | src/hooks/useWhatsAppTTS.tsx:97-124 | what the walk finds is the nearest such element, with its cleaned text |
| TapSearch.ResolveDescendantWhen | src/hooks/useWhatsAppTTS.tsx:126-135 | the descendant scan finds something exactly when no examined ancestor fits and some `span`/`div`/`p` below the target has text strictly between 3 and 500 |
| TapSearch.ResolveDescendantFirst | src/hooks/useWhatsAppTTS.tsx:127-135 | what the scan finds is the first such container in document order, with its cleaned text |
| TapSearch.ResolveNothing | src/hooks/useWhatsAppTTS.tsx:94-138 | nothing is found exactly when neither search has a fitting element; found text is longer than 3 code units |
| WhatsAppTts.TtsHook.WalkAncestors | src/hooks/useWhatsAppTTS.tsx:94-124 | the `while` loop returns the upward walk's result |
| WhatsAppTts.TtsHook.ScanDescendants | src/hooks/useWhatsAppTTS.tsx:127-135 | the `for` loop returns the descendant scan's result |
| WhatsAppTts.TtsHook.HandleTap | src/hooks/useWhatsAppTTS.tsx:80-139 | gated or debounced taps change nothing. Any other tap sets `lastClickTime := now` before searching. The engine then holds exactly the found text's utterance, or is untouched when nothing is found |
| WhatsAppTts.TapSpeech | src/hooks/useWhatsAppTTS.tsx:81-89 | only an accepted tap with a target speaks, exactly when the search finds something, and the text always passes the speech guard |
| WhatsAppTts.DoubleTap | src/hooks/useWhatsAppTTS.tsx:84-86 | a second tap within 500 ms of an accepted one is debounced, so the two taps speak at most once |
| WhatsAppTts.TtsHook.SpeakText | src/hooks/useWhatsAppTTS.tsx:47-76 | text under two code units is ignored; otherwise cancel-then-speak leaves exactly one utterance, with the props' language, rate and pitch and volume 1.0 |
| WhatsAppTts.TtsHook.StopSpeaking | src/hooks/useWhatsAppTTS.tsx:231-235 | the engine is emptied and `isPlaying` is false |
| WhatsAppTts.TtsHook.OnStart | src/hooks/useWhatsAppTTS.tsx:61-64 | `isPlaying` becomes true |
| WhatsAppTts.TtsHook.OnEnd | src/hooks/useWhatsAppTTS.tsx:66-69 | `isPlaying` becomes false |
| WhatsAppTts.TtsHook.OnError | src/hooks/useWhatsAppTTS.tsx:71-74 | `isPlaying` becomes false |
| WhatsAppTts.TtsHook.constructor | src/hooks/useWhatsAppTTS.tsx:20-22 | not playing, `lastClickTime` 0 |
| WhatsAppTts.SpeechEngine.Cancel | src/hooks/useWhatsAppTTS.tsx:53 | `cancel()` drops every queued utterance |
| WhatsAppTts.SpeechEngine.Speak | src/hooks/useWhatsAppTTS.tsx:76 | `speak(u)` queues `u` behind what is there |
| JsText.ReplaceSpaceRunsByNothing | src/hooks/useWhatsAppWhitelist.tsx:59 | replacing whitespace runs by `''` deletes exactly the whitespace |
| Whitelist.NormalizeDeletesWhitespace | src/hooks/useWhatsAppWhitelist.tsx:59 | normalisation deletes every whitespace character anywhere and keeps the rest in order; the result has no whitespace |
| Whitelist.NormalizeIdempotent | src/hooks/useWhatsAppWhitelist.tsx:59 | normalising twice is normalising once |
| Whitelist.NormalizeIgnoresInsertedSpace | src/hooks/useWhatsAppWhitelist.tsx:59-60 | inserting whitespace anywhere does not change the normalised number, so it cannot change the check |
| Whitelist.WhitelistGate.constructor | src/hooks/useWhatsAppWhitelist.tsx:11-12 | list not loaded, not whitelisted, no current number, storage as left by earlier sessions |
| Whitelist.WhitelistGate.CheckWhitelistStatus | src/hooks/useWhatsAppWhitelist.tsx:51-75 | with no list loaded, the check answers false and changes nothing. With a list, the answer is exact membership of the normalised number, `currentNumber` is that number and `isWhitelisted` the answer. Both keys are written only when the number is listed; storage is untouched otherwise |
| Whitelist.WhitelistGate.RestoreSaved | src/hooks/useWhatsAppWhitelist.tsx:78-93 | a verified, non-empty saved number that is still listed is adopted with storage unchanged. One no longer listed has both keys removed with state unchanged. Anything else changes nothing |
| Whitelist.WhitelistGate.ReceiveWhitelist | src/hooks/useWhatsAppWhitelist.tsx:78-93 | the loaded list is recorded and the restore rule is applied to it |
| Whitelist.CheckThenRestore | src/hooks/useWhatsAppWhitelist.tsx:69-87 | a successful check of a non-empty number is adopted again by the restore against the same list |
| Whitelist.BlankNeverRestored | src/hooks/useWhatsAppWhitelist.tsx:82 | an empty saved number is never restored, even when the status is `"true"` |
| Whitelist.RestoreSettles | src/hooks/useWhatsAppWhitelist.tsx:82-91 | after a forget, the next restore changes nothing; an adopted number is in the list |
| Whitelist.NormalizePadded | src/hooks/useWhatsAppWhitelist.tsx:59 | a number padded with a space at each end normalises to itself |
| Whitelist.NormalizeGroups | src/hooks/useWhatsAppWhitelist.tsx:59 | a number in four space-separated groups normalises to the groups joined |
| Whitelist.PaddedNumber | src/hooks/useWhatsAppWhitelist.tsx:59 | `" +12025550123 "` normalises to `"+12025550123"` |
| Whitelist.GroupedNumber | src/hooks/useWhatsAppWhitelist.tsx:59 | `"+1 202 555 0123"` normalises to `"+12025550123"` |
| Whitelist.FallbackScenario | src/hooks/useWhatsAppWhitelist.tsx:42-72 | against the fallback list both spellings check true, and storage holds `"+12025550123"` with status `"true"` |
| IndexPage.VoiceAssistPage.constructor | src/pages/Index.tsx:16-23 | WhatsApp mode, not listening, not playing, not verified, language `en-US`, both slider values `[1]` |
| IndexPage.VoiceAssistPage.HandleModeToggle | src/pages/Index.tsx:47-55 | the mode becomes the switch value. Switching into WhatsApp mode clears the verification; switching to document mode keeps it; nothing else changes |
| IndexPage.VoiceAssistPage.HandleStartListening | src/pages/Index.tsx:57-66 | while the controls are disabled (WhatsApp mode, unverified) nothing changes; otherwise only `isListening` becomes true |
| IndexPage.VoiceAssistPage.HandleStopListening | src/pages/Index.tsx:68-72 | listening and playing become false; mode and verification are unchanged |
| IndexPage.VoiceAssistPage.HandleVerificationChange | src/pages/Index.tsx:74-77 | only the verification flag changes |
| IndexPage.VoiceAssistPage.FloatingToggle | src/pages/Index.tsx:232-236 | while the button is disabled (WhatsApp mode, unverified) a press changes nothing; otherwise it stops listening and playing when listening and starts listening when not; mode and verification are unchanged |
| IndexPage.ListeningUnverified | src/pages/Index.tsx:47-64 | listening in WhatsApp mode without a verified number is reachable by switching modes |
| IndexPage.ListeningAfterRevocation | src/pages/Index.tsx:57-76 | it is also reachable by a verification change after starting |
| IndexPage.DisabledWhileListening | src/pages/Index.tsx:232-236 | in the listening-and-unverified state a press on the disabled button leaves the page listening |

`IndexPage.VoiceAssistPage.IsDisabled` is the `isDisabled` expression of
`src/pages/Index.tsx:142` and `:235`. Both buttons pass it to their
`disabled` attribute (`src/components/FloatingButton.tsx:15`,
`src/components/TTSControls.tsx:57`) and dispatch on `isListening` in the
same way, so `FloatingToggle` models a press on either. The page itself never sets its
`isPlaying` to true: `HandleStopListening` sets it to false and every other
handler keeps it.

## Left out

- `checkAccessibilityStatus`, `requestAccessibilityPermission`, `isAndroidApp` and the `isAccessibilityEnabled` state: they query a native plugin and the user agent.
- The listener `useEffect` (attach/detach, and the engine cancel in its cleanup): DOM event plumbing. The gate in `HandleTap` carries the same condition.
- WhatsAppTts.TtsHook.HandleTap: does not model the background highlight of an ancestor hit or its `setTimeout` restore, because they are style writes and a timer. Only an ancestor hit (`Found.InAncestor`) is highlighted.
- The `isWhatsAppMessage` selector: it is computed but never used. The model has no input for it, so selection cannot depend on it.
- Toasts and console output, including the 30-character preview: presentation.
- The engine firing `onstart`/`onend`/`onerror`: the browser decides when they fire, so they are methods its environment calls. The order in which a cancelled utterance's callbacks fire relative to the next one's is not modelled.
- The react-query `fetch`, its retries, stale time and CORS handling: network I/O. The loaded list is a parameter, and the fallback list is a constant.
- `Date.now()` is an integer parameter. `innerText`, which depends on layout, is an input of each element. `voiceSpeed` and `voicePitch` are reals (one-element sequences of reals on the page, as the sliders keep them); no floating-point arithmetic is done on them.
- Tag names are lower case, as `querySelectorAll('span, div, p')` matches them in an HTML document. Documents are closed: every parent and descendant an element names is in the document, as in any DOM.
- Lone UTF-16 surrogates: Dafny strings hold Unicode scalar values, so a string with an unpaired surrogate cannot be represented. No pattern character is a surrogate, so the scanners give the same result over scalars as over code units.
- `useTTS`, `usePermissions`, `sw.js`, the components and `capacitor.config.ts`: wrappers, probes, I/O and markup. `WhatsAppVerification` is not part of this model beyond being the caller of the check and of `handleVerificationChange`.
- The JSX of the `Index` page: the language list, the settings panel, the sliders' setters and the speech-availability effect.
- No file of the modelled program calls `useWhatsAppTTS`, so its props arrive as a `TtsProps` value with each call.
