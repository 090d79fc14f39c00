# AivisTTSApp main window, modelled in Dafny

AivisTTSApp is a small Windows Forms client for an AivisSpeech text-to-speech
server. Its whole logic sits in `MainForm` (`Program.cs`). The form loads the
voice catalog from `{base}/speakers` and flattens it into a voice-model
drop-down, one entry per (speaker, style) pair, labelled
`"{speaker} - {style} (ID:{id})"`. On Speak it checks the text, the playback
device, the selected voice and the server address. It then posts
`{base}/audio_query?text=…&speaker=…`, posts the answer to
`{base}/synthesis?speaker=…`, and plays the returned WAV on the chosen
device. A toggle button shows and hides the advanced settings panel.

The model has eight modules:

- `Wrappers` (`wrappers.dfy`): `Option`.
- `Text` (`text.dfy`): the .NET string operations the form relies on. These are `Trim()` over the `char.IsWhiteSpace` set, `TrimEnd(char)` of one given character (the form uses it with `/`), and the decimal rendering of an `int`. It also holds the way a server splits a request target at `?`, `&` and `=`.
- `Endpoints` (`endpoints.dfy`): the base address (`TrimEnd('/')` of the server text) and the three request addresses. It proves how a server reads each address back.
- `Catalog` (`catalog.dfy`): the `/speakers` DTOs, including JSON `null`s, and the flattening of the nested `foreach` into drop-down items. The flattening is a `Listing` that records whether the enumeration stopped at a null.
- `Effects` (`effects.dfy`): the message boxes the form shows (their texts and captions), the requests and the playback it issues, and the answers they get.
- `Speech` (`speech.dfy`): the four checks that start a speak, and what follows the audio query.
- `Advanced` (`advanced.dfy`): the panel visibility, the toggle caption and the minimum window size.
- `App` (`main_form.dfy`): `class MainForm`, with one field per control state the handlers read or write. It also records the message boxes shown and the requests issued, oldest first.

Each asynchronous handler is split at its first `await`. `BeginLoad` and
`BeginSpeak` run when the event fires. `CompleteLoad` and `CompleteSpeak` run
once the server's answers are known; those answers are parameters. Between
the two halves the window keeps handling events. That is when the `Enabled`
flag of a button matters. The ghost counters `speaksInFlight` and
`loadsInFlight` count handlers that are between their two halves.
`WellFormed()` states that the selections index their lists and that the
minimum size follows the panel. The click handlers and `Initialize` require
and keep it; the `Begin`/`Complete` halves and Ctrl+Enter keep it whenever it
held before.
`Valid()` adds that a button is disabled exactly while an operation it
started is outstanding; every handler keeps it, but the program as written
can leave it (Findings), and the handlers still accept clicks there.

`Uri.EscapeDataString` is the parameter `esc`. The audio device list and the
HTTP, JSON and audio libraries are outside the model. Their results enter as
parameters: `Initialize`'s `endpoints`, and `SpeakersResponse`, `HttpResult`
and `Playback`.

Four points about the code's behaviour that the model keeps as written:

- Both callers of `LoadModelsAsync` pass `showError: true`: the automatic load at start-up (line 118) and the refresh button (line 92). With `showError` false, the `catch … when (showError)` at line 142 would not catch, and the exception would leave the handler. `App.MainForm.CompleteLoad` returns it as `escaped`.
- A JSON `null` speaker, `styles` array or style is only noticed inside the `foreach` at lines 135-137, after `Items.Clear()` at line 134. The items added before it stay in the list, nothing is selected, and the null-reference message is shown with the connection-error caption (`Catalog.Flatten`, `App.MainForm.CompleteLoad`).
- Every failure after the checks of a speak, whether of the audio query, the synthesis or the playback, shows the one message `"発話失敗: " + ex.Message` (lines 166-169, `Speech.SpeakTail`).
- The Speak button is disabled while a speak is in flight (line 160), but Ctrl+Enter does not go through the button (lines 94-100; see Findings).

## Model

| member | source | states |
|---|---|---|
| Text.Trim | Program.cs:155 | `Trim()` never lengthens a text, and what it leaves, unless empty, starts and ends with a character that is not white space |
| Text.TrimKeepsMiddle | Program.cs:155 | `Trim()` cuts nothing but white space: its result is a stretch `s[a..b]` of the text with only white space before and after it |
| Text.TrimEmptyIff | Program.cs:155 | `Trim()` of a text is empty exactly when every character of it is white space, in both directions |
| Text.TrimNonEmpty | Program.cs:155 | a non-empty trimmed text starts and ends with a character that is not white space, and the original text holds such a character |
| Text.DecimalRoundTrip | Program.cs:178 | the decimal rendering of every `int` (minus sign, digits, no leading zero) reads back as that `int` |
| Endpoints.BaseUrl | Program.cs:124 | the base address is a prefix of the server text, everything cut off is `/`, and the base does not end with `/` |
| Endpoints.BaseUrlIdempotent | Program.cs:124 | taking the base of a base address changes nothing |
| Endpoints.BaseUrlEmptyIff | Program.cs:124-125 | the base is empty, so a load stops, exactly when the server text is empty or made of slashes only |
| Endpoints.SpeakersTarget | Program.cs:130 | for a base address without `?` or `#`, the catalog address reads back as path `{base}/speakers` with no parameters |
| Endpoints.QueryTarget | Program.cs:178 | for a base address without `?` or `#` and an encoding that leaves no `&` or `#` in the text, the audio-query address reads back as path `{base}/audio_query` with exactly the parameters `text` (the encoded text, unchanged) and `speaker` (a number that reads back as the style id) |
| Endpoints.SynthesisTarget | Program.cs:182 | for a base address without `?` or `#`, the synthesis address reads back as path `{base}/synthesis` with the single parameter `speaker`, which reads back as the style id |
| Catalog.Label | Program.cs:137 | a label starts with the speaker name, is longer than the speaker and style names together, and ends with `)` |
| Catalog.LabelShowsId | Program.cs:137 | whatever the speaker and style names hold, the number after the last `:` of a label, before its `)`, is the style id |
| Catalog.Flatten | Program.cs:134-137 | the nested enumeration yields at most one item per (speaker, style) pair |
| Catalog.FlattenAppend | Program.cs:134-137 | enumerating speakers `a + b` is enumerating `a`, then `b` only if `a` ran to the end |
| Catalog.FlattenCompleteIff | Program.cs:135-137 | the nested enumeration runs to the end exactly when the response holds no null speaker, `styles` array or style |
| Catalog.FlattenLength | Program.cs:135-137 | without nulls the list has exactly one item per (speaker, style) pair |
| Catalog.FlattenAt | Program.cs:135-137 | without nulls, style `j` of speaker `k` sits at position (pairs of the speakers before `k`) + `j`, with that style's id and label: speaker-major input order |
| Catalog.FlattenPrefix | Program.cs:134-137 | the items of the first speakers start the list: items already added are never taken back |
| Catalog.FlattenEmptyIff | Program.cs:139-140 | without nulls the list is empty exactly when no speaker has a style |
| Catalog.FlattenExample | Program.cs:137 | speakers A (x, 1) and B (y, 2; z, 3) give `A - x (ID:1)`, `B - y (ID:2)`, `B - z (ID:3)` in that order |
| Advanced.Toggled | Program.cs:104-109 | a click flips the panel's visibility, and the caption and minimum size follow the new visibility |
| Advanced.ToggleTwiceRestores | Program.cs:104-109 | from a consistent state two clicks restore visibility, caption and minimum size |
| Advanced.InitialCaptionMismatch | Program.cs:31-42 | as written, the starting state has the right minimum size but the wrong caption: the first click leaves the caption as it was, after which the state is consistent, and two clicks do not restore the start |
| Advanced.InitialChrome | Program.cs:31-42 | the corrected starting state: visible panel, minimum size 300×180, the caption of a visible panel, and every click changes the caption |
| Speech.SpeakGate | Program.cs:155-158 | a refusal carries one of the two messages; a request carries the base address, the trimmed text and the selected style id |
| Speech.SpeakGateOutcomes | Program.cs:155-158 | a request goes ahead exactly when all four checks pass; empty text or no device returns silently; a missing model is reported before a missing address; each message is issued exactly in its own case |
| Speech.WhiteSpaceIsSkipped | Program.cs:155 | text made of white space only returns silently, whatever the other fields hold |
| Speech.IssuedRequestIsClean | Program.cs:155-158 | an issued request carries the user's text with only the white space around it cut, non-empty and not starting or ending with white space, and a base address that is non-empty without a trailing `/` |
| Speech.SpeakTail | Program.cs:161-184 | after the query: a failed query ends with its message and no further request; otherwise the synthesis request carries the query's answer; a failed synthesis shows its message; playback of the synthesised bytes, unchanged, is attempted exactly when both requests succeed, and a failed playback shows its message; exactly one message unless all three steps succeed |
| App.Reloaded | Program.cs:134-139 | a failed request keeps list and selection; a read response replaces the list with its flattening and selects the first entry exactly when there is no null and the list is not empty, none otherwise; a selection that indexed the old list indexes the new one or is none |
| App.ReloadedSelectsWhenStyles | Program.cs:139 | without nulls the first entry is selected exactly when some speaker has a style |
| App.ReloadedIdempotent | Program.cs:134-139 | loading again with the same answer gives the same list and selection |
| App.LoadReport | Program.cs:139-145 | with `showError` set, a failure (request, status, JSON or null) is shown as the connection-error message with the base address and the exception message, and nothing escapes; with it clear, nothing is shown and the failure escapes; the "no styles" warning appears exactly when `showError` is set and a read response flattens completely to nothing; a load that fills the list without failure shows nothing |
| App.MainForm.constructor | Program.cs:27-47 | the starting state as written: default server text, empty lists with nothing selected, the visible panel with its minimum size but the hidden panel's caption, both buttons enabled, nothing shown or sent |
| App.MainForm.ToggleAdvanced | Program.cs:104-109 | from any well-formed state, whatever speaks or loads are outstanding and including the start, the panel state becomes `Toggled` of the old one, after which caption and minimum size follow the visibility; the form stays well formed, and valid if it was |
| App.MainForm.BeginLoad | Program.cs:122-130 | an empty base address shows the "enter a URL" message only when `showError` is set, and sends nothing; otherwise the refresh button is disabled and `{base}/speakers` is requested |
| App.MainForm.FillModels | Program.cs:134-137 | the nested loop leaves exactly the flattening in the list, and reports whether it stopped at a null |
| App.MainForm.AddStyles | Program.cs:136-137 | the inner loop appends one labelled item per style, in order, up to the first null style |
| App.MainForm.CompleteLoad | Program.cs:131-149 | the list and the selection become `Reloaded`; the messages shown and the exception that escapes are `LoadReport`'s; the refresh button is enabled again on every path |
| App.MainForm.ReadResponse | Program.cs:130-140 | the `try` block: the list and selection become `Reloaded`, the failure raised is `LoadFailure`, and the "no styles" warning is shown only when `showError` is set, nothing failed and the list is empty |
| App.MainForm.BeginSpeak | Program.cs:153-160 | the checks as `SpeakGate` decides them: nothing, one message, or the Speak button disabled and the audio query for the request sent |
| App.MainForm.CompleteSpeak | Program.cs:161-184 | the requests, the playback attempt and the message are `SpeakTail`'s, on the device selected when playback starts; the Speak button is enabled again on every path |
| App.MainForm.OnSpeakRequest | Program.cs:91 | in any well-formed state, a click on an enabled Speak button begins a speak, even with another outstanding after a Ctrl+Enter overlap; on a disabled one nothing changes; the form stays well formed, and valid if it was |
| App.MainForm.OnCtrlEnterAsWritten | Program.cs:94-101 | Ctrl+Enter begins a speak whether or not the Speak button is enabled, and keeps a well-formed form well-formed |
| App.MainForm.OnRefreshClick | Program.cs:92 | in any well-formed state, whatever speaks are outstanding, a click on an enabled refresh button begins a load with messages; on a disabled one nothing changes; the form stays well formed, and valid if it was |
| App.MainForm.Initialize | Program.cs:112-119 | the active playback devices are listed, the first is selected if there is one, and a load with messages begins; the form stays well formed, and valid if it was with no load outstanding |
| App.CtrlEnterOverlap | Program.cs:94-101 | as written, Speak then Ctrl+Enter starts two speaks; when the first finishes, the button is enabled while the second is still outstanding (one speak in flight, so `Valid()` fails) |
| App.SpeakThenCtrlEnter | Program.cs:91-100 | as written, a click on Speak followed by Ctrl+Enter before any answer starts the same request twice: two speaks in flight, the button disabled, the form still well-formed |
| App.CtrlEnterGuarded | Program.cs:91-101 | with Ctrl+Enter going through the button, the same keys start one speak, and the button stays disabled until it finishes |

## Left out

- Layout (`BuildLayout`, lines 50-85), the window title and size, and the "Always on Top" check box (line 90): they set properties that no handler reads.
- The wait cursor (lines 127, 148, 160, 172): it is set and reset alongside the `Enabled` flags and decides nothing.
- `HttpClient`, `EnsureSuccessStatusCode` and the JSON deserializer: their outcome is the parameter `SpeakersResponse` or `HttpResult`, a body or an exception message. The message texts of the runtime's exceptions are not modelled, except the null-reference message that the catalog loop itself raises.
- `Uri.EscapeDataString` is the parameter `esc`. `Endpoints.QueryTarget` takes as a requirement that the encoded text holds no `&` and no `#`, which percent-encoding guarantees. That the server decodes the original text back is not modelled.
- Endpoints.SpeakersTarget, Endpoints.QueryTarget and Endpoints.SynthesisTarget state the read-back only for a base address without `?` or `#`. A server text that already carries a query string yields addresses whose parameters the model does not describe. With a `#`, everything from it on is a fragment that is never sent, so the server does not see the intended path.
- NAudio (`PlayWaveAsync`, lines 187-196): WAV decoding, resampling, the WASAPI output and the 50 ms polling loop. Playback is the effect `Play(device, bytes)`, which records the attempt, plus a `Playback` outcome; an exception from `WaveFileReader` (line 189) or the device lookup (line 190) is a `PlaybackFailed` outcome after the attempt. The device index is handed over as the form holds it then. The model does not check that the device list has not changed since it was read.
- The device enumeration at start-up (line 114) is the parameter `endpoints` of `Initialize`.
- A `null` speaker name or style name is rendered as the empty string, as string interpolation does; the model does not tell the two apart.
- `Text.IsWhiteSpace` is the fixed set of characters `char.IsWhiteSpace` accepts; it is not derived from Unicode data.
- The current culture's negative sign in `{id}` is taken to be `-`.
- The later awaits of a handler: each Complete half collapses the awaits after the first (lines 132, 179-184 and the 50 ms playback poll at line 195) into one step. Handlers that run during them are ordered before or after that step in `effects`. So the model cannot place, say, a refresh's `Get` between the synthesis `Post` and the `Play`.
- No caller passes `showError: false`. `App.MainForm.BeginLoad` and `App.MainForm.CompleteLoad` still model that path, as written.

## Findings

| source | as written | input that shows it | evidently intended | confidence | as-written member | corrected member |
|---|---|---|---|---|---|---|
| Program.cs:31 | the toggle button starts with the caption of a hidden panel, `▼ 詳細`, while the panel starts visible with the visible panel's minimum size (line 42) | one click on the toggle button at start: the panel hides and the caption stays `▼ 詳細` | the caption `▲ 詳細` while the panel is visible, as `ToggleAdvanced` (line 107) sets it | medium, not executed | Advanced.InitialCaptionMismatch | Advanced.InitialChrome |
| Program.cs:94-100 | Ctrl+Enter in the text box calls `SpeakAsync` directly, bypassing the Speak button that line 160 disables while a speak is in flight | click Speak, then press Ctrl+Enter before the server answers: two speaks are in flight, and the first to finish enables the button while the other is outstanding | at most one speak in flight: Ctrl+Enter ignored while the Speak button is disabled | medium, not executed | App.CtrlEnterOverlap | App.CtrlEnterGuarded |
