# A verified model of the portfolio site's three interactive components

The site is mostly markup. Three components hold logic that can be stated
precisely, and this project models those three and proves properties of them:

- **The streaming chat assistant** (`ChatAssistant`).
  - A submission is accepted only when the query is not blank and, in the
    state the handler sees, no answer is streaming. The delayed submit of a
    preset prompt is an exception, described under "Left out".
  - The request goes to the development endpoint or the configured one.
  - The answer is read chunk by chunk. The running concatenation is shown
    after every chunk, and the loading indicator goes off at the first chunk.
  - Every error path shows an `Error: …` text, and the active flag is
    released on every exit.
- **The contact form** (`Contact`).
  - Each field must be non-blank, and the e-mail must match the unanchored
    pattern `\S+@\S+\.\S+`.
  - An invalid form shows its field errors and sends nothing. A valid one
    sends a single `POST`.
  - Its outcome marks the form as submitted and empties it, or sets a form
    error. `loading` goes off on every path.
- **The simulated chat box** (`ChatInputWithoutOutline`).
  - On submit it types the message back one UTF-16 code unit per timer tick,
    since `message.length` and `message[i]` count code units. The reply is
    always the code units typed so far. A character outside the Basic
    Multilingual Plane (an emoji, say) takes two ticks, and after the first
    of them the reply ends in a lone high surrogate.
  - Exactly `message.length` ticks after the submit the reply is the whole
    message. It reads back as the message. One tick later typing stops.

Two further modules hold what the components share:

- `Js`: the JavaScript white-space class used by `\s` and
  `String.prototype.trim`, `trim` itself, the blank test `!s.trim()`, the
  decimal rendering of a number in a template literal, the string
  conversion of `undefined`, and the UTF-16 code units a string is stored
  as, with the reading back of code units as characters.
- `Config`: the base URL chosen by the development flag, and the bearer
  header.

`Wrappers` provides `Option`.

Each asynchronous handler is split at its `await`:

- `HandleSubmit` / `Receive` in the chat assistant;
- `Submit` / `Settle` in the contact form.

What the outside world supplies becomes a parameter of the second half:

- the response of `fetch`;
- the results of every `reader.read()`;
- the outcome of the e-mail request;
- an opaque per-chunk decoder.

The build-time environment is a parameter `Env`. Translated texts are
represented by their translation keys.

## Model

| member | source | states |
|---|---|---|
| Js.IsSpace | src/components/Contact.tsx:16 | the class of `\s` and of `trim` holds every ASCII space, tab, line feed and carriage return, and only characters inside the Basic Multilingual Plane |
| Js.Trim | src/components/ChatAssistant.tsx:37 | `trim` returns a contiguous slice of the input with only white space cut from both ends; its ends are not white space; it is empty exactly when the input is all white space |
| Js.SkipSpace | src/components/ChatAssistant.tsx:37 | the scan from the front stops at the first character that is not white space, and everything skipped is white space |
| Js.SkipSpaceBack | src/components/ChatAssistant.tsx:37 | the scan from the back, never passing its lower bound, stops after the last character that is not white space, and everything skipped is white space |
| Js.TrimShape | src/components/chat-input-without-outline.tsx:16 | the cut made by `trim` removes white space only, and the two cut points meet exactly when the string is all white space |
| Js.IsBlank | src/components/ChatAssistant.tsx:37 | `!s.trim()` holds exactly when every character of `s` is white space (so "" is blank) |
| Js.Decimal | src/components/ChatAssistant.tsx:69 | the template literal `${status}` is a non-empty string of decimal digits without a leading zero (except "0" itself) |
| Js.ParseDecimalOfDecimal | src/components/ChatAssistant.tsx:69 | reading back the rendered numeral gives the status code again |
| Js.DecimalInjective | src/components/ChatAssistant.tsx:69 | distinct numbers give distinct numerals |
| Js.Stringify | src/components/ChatAssistant.tsx:58 | a present value converts to itself, an absent one to "undefined" |
| Js.Utf16Char | src/components/chat-input-without-outline.tsx:30 | a character is one code unit equal to it when it lies in the Basic Multilingual Plane (never a surrogate), else a high surrogate followed by a low one |
| Js.Utf16 | src/components/chat-input-without-outline.tsx:28 | the code units of a string: never fewer than its characters, and none exactly for "" |
| Js.FromPair | src/components/chat-input-without-outline.tsx:30 | a surrogate pair stands for a character beyond the Basic Multilingual Plane |
| Js.Utf16CharRoundTrip | src/components/chat-input-without-outline.tsx:30 | reading back one character's code units, followed by any others, yields that character first |
| Js.Utf16RoundTrip | src/components/chat-input-without-outline.tsx:28-30 | reading back the code units of any string gives the string again, so the encoding loses nothing |
| Js.Utf16OfBmp | src/components/chat-input-without-outline.tsx:28-30 | a string within the Basic Multilingual Plane has one code unit per character, equal to it |
| Js.BmpUnitsAreUtf16 | src/components/chat-input-without-outline.tsx:10 | for such a string, taking each character as a code unit gives exactly its UTF-16 form |
| Config.BaseUrl | src/components/ChatAssistant.tsx:46-50 | the local endpoint exactly when the development flag is the string "true"; otherwise the configured URL, or "undefined" when none is configured |
| Config.Bearer | src/components/ChatAssistant.tsx:58 | the header is "Bearer " followed by the key's string form |
| ChatAssistant.HttpErrorMessage | src/components/ChatAssistant.tsx:69 | the message is "HTTP error! status: " followed by digits that read back as the status |
| ChatAssistant.HttpErrorMessageInjective | src/components/ChatAssistant.tsx:69 | distinct statuses give distinct messages |
| ChatAssistant.HasValue | src/components/ChatAssistant.tsx:83 | `if (value)`: only a resolved read can carry a chunk, and a present chunk counts even when empty |
| ChatAssistant.Received | src/components/ChatAssistant.tsx:83-85 | a read contributes the decoding of its chunk, or nothing when it carries none |
| ChatAssistant.Decoded | src/components/ChatAssistant.tsx:84-85 | the accumulated text of a run of reads; it is empty when none of them carries a chunk |
| ChatAssistant.ReadsPerformed | src/components/ChatAssistant.tsx:80-94 | the number of reads consumed by `while (!done)`: at least one when any read is available; no earlier read ended the loop; and if reads remain, the last one consumed ended it |
| ChatAssistant.ReadsPerformedUnique | src/components/ChatAssistant.tsx:80-94 | any count with those three properties is the count of reads performed, so the loop's exit point is determined |
| ChatAssistant.DecodedSnoc | src/components/ChatAssistant.tsx:84-85 | one more read appends exactly its decoded chunk to the accumulated text, in arrival order |
| ChatAssistant.DecodedGrows | src/components/ChatAssistant.tsx:85-86 | each text shown during the stream is a prefix of every later one |
| ChatAssistant.AnyValueSnoc | src/components/ChatAssistant.tsx:83-92 | a chunk has arrived after one more read exactly when one had arrived before or this read carries a value |
| ChatAssistant.DecodedUpToIsPrefix | src/components/ChatAssistant.tsx:77-86 | the text the loop builds read by read is the accumulated text of the reads consumed so far |
| ChatAssistant.ChunkByIsPrefix | src/components/ChatAssistant.tsx:78-92 | the first-chunk flag is cleared exactly when some read consumed so far carried a chunk |
| ChatAssistant.FirstEndIsLastPerformed | src/components/ChatAssistant.tsx:80-94 | the first read that is done or rejected, when there is one, is the last read the loop performs |
| ChatAssistant.StreamEnd | src/components/ChatAssistant.tsx:80-101 | the stream part fails exactly when the first read that ends the loop is a rejection, and completes exactly when it is a resolved read with `done` set |
| ChatAssistant.StreamEndStillOpen | src/components/ChatAssistant.tsx:80-94 | the reads leave the loop waiting exactly when none of them is done or rejected |
| ChatAssistant.PresetPromptsAreNotBlank | src/components/ChatAssistant.tsx:22-28 | every preset prompt passes the blank test, so a click is refused only while an answer streams |
| ChatAssistant.Assistant.constructor | src/components/ChatAssistant.tsx:14-20 | empty input, the greeting shown, all three flags off |
| ChatAssistant.Assistant.SetMessage | src/components/ChatAssistant.tsx:150 | the input takes the typed text; nothing else changes |
| ChatAssistant.Assistant.HandleSubmit | src/components/ChatAssistant.tsx:32-66 | the text sent is the preset prompt if given, else the input. A request is issued exactly when that text is not blank and nothing streams. On acceptance the three flags go on and the display is emptied; the request goes to the dev-or-configured base plus `/generate`, carries the bearer key, asks for a stream and has no prior messages. Otherwise no state changes. The input is never changed |
| ChatAssistant.Assistant.HandleClear | src/components/ChatAssistant.tsx:112-114 | the input is emptied; nothing else changes |
| ChatAssistant.Assistant.HandlePromptClick | src/components/ChatAssistant.tsx:117-126 | the prompt goes into the input and is submitted under the same guard and with the same effects as `HandleSubmit`, against the current state |
| ChatAssistant.Assistant.Receive | src/components/ChatAssistant.tsx:52-105 | `fetchData` after `fetch` settles. A rejected fetch shows `Error: ` plus its message. A non-ok status shows `Error: HTTP error! status: ` plus the status. An ok stream ends as `StreamEnd` says: a rejected read shows its error; otherwise the text shown is the concatenation of every chunk decoded (unchanged if none came), and loading is off exactly when a chunk came. Every error turns streaming and loading off. Every ending path (error or closed stream) turns streaming and the active flag off. The handler is left waiting exactly when the status is ok and no read is done or rejected. The input is untouched |
| ChatAssistant.Assistant.Fail | src/components/ChatAssistant.tsx:97-104 | the `catch` followed by the `finally`: streaming, loading and active flags off, the display showing `Error: ` and the message |
| ChatAssistant.Assistant.ReadBody | src/components/ChatAssistant.tsx:74-104 | an ok response: the read loop's effect followed by the close or the `catch`, in terms of the reads actually performed; it stays waiting exactly when no read ends the loop |
| ChatAssistant.Assistant.ConsumeReads | src/components/ChatAssistant.tsx:76-94 | the loop itself. It consumes reads in order until one is done or rejected, or until none is left. The display is the in-order concatenation of the chunks so far, or the old text if none came. Loading is cleared by the first chunk and stays cleared. The other flags and the input are unchanged |
| Contact.RegexMatchAt | src/components/Contact.tsx:16 | a match of `\S+@\S+\.\S+` lies within the string and spans at least five characters |
| Contact.MatchesEmailRegex | src/components/Contact.tsx:16 | a string the pattern occurs in has at least five characters and an `@` with at least one character before it and three after it |
| Contact.RegexIffShortMatch | src/components/Contact.tsx:16 | the pattern occurs somewhere exactly when it has a shortest occurrence: one non-space character, `@`, non-space text, `.`, one non-space character |
| Contact.DotFrom | src/components/Contact.tsx:16 | the scan for the `\.\S` part succeeds exactly when such a `.` exists beyond the `@` with no white space between |
| Contact.AtFrom | src/components/Contact.tsx:16 | the scan over `@` positions succeeds exactly when a shortest occurrence exists at or after the starting position |
| Contact.ValidateEmail | src/components/Contact.tsx:15-17 | `validateEmail` holds exactly when the string contains a match of `\S+@\S+\.\S+` (unanchored, with `\S` the complement of the JavaScript white-space class) |
| Contact.ValidEmailIsNotBlank | src/components/Contact.tsx:35 | a string `validateEmail` accepts is never blank |
| Contact.FormData.With | src/components/Contact.tsx:20 | `{ ...formData, [name]: value }` sets the named field and keeps the other two |
| Contact.Errors.Cleared | src/components/Contact.tsx:21 | `{ ...errors, [name]: '', form: '' }` clears the named field's error and the form error, and keeps the others |
| Contact.Required | src/components/Contact.tsx:30-43 | each field's error text (its translation key) is non-empty, so a set error is visible |
| Contact.FieldOk | src/components/Contact.tsx:30-43 | a field that passes its check is not blank |
| Contact.EmailOkIffPattern | src/components/Contact.tsx:35-38 | the e-mail check `!trim() \|\| !validateEmail` fails exactly when the pattern does not match |
| Contact.ValidateForm | src/components/Contact.tsx:26-43 | the form error is empty. Each field's error is its required text exactly when the field fails its check, otherwise empty. The form is valid exactly when every field passes, which is exactly when no field error is set |
| Contact.RefusalMessage | src/components/Contact.tsx:72 | `data.detail \|\| 'An error occurred'`: the server's detail whenever it is a non-empty string, the generic text when it is missing or empty; never an empty text |
| Contact.ContactForm.constructor | src/components/Contact.tsx:10-13 | empty form, no errors, not submitted, not loading |
| Contact.ContactForm.HandleChange | src/components/Contact.tsx:19-22 | only the named field changes; only its error and the form error are cleared; the flags are kept; no unjustified error appears |
| Contact.ContactForm.Submit | src/components/Contact.tsx:24-65 | a request is made exactly when every field passes. It goes to the dev-or-configured base plus `/send_email`, carries the bearer key and the form data, turns `loading` on and keeps the errors. An invalid form makes no request, keeps `loading`, replaces the errors with the new ones (form error empty, at least one field error set). The form data and the submitted flag are never changed. Every error shown is one its field still deserves |
| Contact.ContactForm.Settle | src/components/Contact.tsx:66-79 | an ok response sets submitted and empties the form. A refusal sets the form error to the detail or the generic text. An exception sets the "while sending" text. `loading` is off on every path |
| ChatInputWithoutOutline.Length | src/components/chat-input-without-outline.tsx:28-35 | `message.length` counts code units: never fewer than the characters, zero only for "" |
| ChatInputWithoutOutline.Submitted | src/components/chat-input-without-outline.tsx:17-19 | an accepted submit keeps the message, starts typing at index 0, and the empty reply is the typed prefix |
| ChatInputWithoutOutline.Step | src/components/chat-input-without-outline.tsx:27-38 | one run of the effect never changes the message and leaves a settled state alone; from a consistent state typing goes on exactly while code units remain, and each such tick appends `message[streamIndex]` and advances the index by one |
| ChatInputWithoutOutline.Steps | src/components/chat-input-without-outline.tsx:27-38 | any number of ticks keep the message, and change nothing once typing has stopped |
| ChatInputWithoutOutline.StepKeepsTypedSoFar | src/components/chat-input-without-outline.tsx:27-38 | a tick keeps the reply equal to the typed prefix of the message's code units and never changes the message |
| ChatInputWithoutOutline.TicksTypePrefix | src/components/chat-input-without-outline.tsx:28-32 | from a consistent typing state, `n` ticks (while code units remain) type exactly the next `n` code units |
| ChatInputWithoutOutline.SettledStaysSettled | src/components/chat-input-without-outline.tsx:27-38 | once typing has stopped, ticks change nothing |
| ChatInputWithoutOutline.TypesWholeMessage | src/components/chat-input-without-outline.tsx:14-38 | `k <= m.length` ticks after a submit of `m` the reply is the first `k` code units of `m` and typing goes on; one tick after `m.length` ticks typing has stopped with the reply equal to all of `m`'s code units, and it stays so |
| ChatInputWithoutOutline.TypedReplyIsMessage | src/components/chat-input-without-outline.tsx:14-38 | once typing has stopped, the reply reads back as exactly the submitted message |
| ChatInputWithoutOutline.StepsSplit | src/components/chat-input-without-outline.tsx:27-38 | `p` ticks and then `q` more are `p + q` ticks |
| ChatInputWithoutOutline.Typewriter.constructor | src/components/chat-input-without-outline.tsx:9-12 | empty message, the greeting's code units shown, not typing, index 0 |
| ChatInputWithoutOutline.Typewriter.SetMessage | src/components/chat-input-without-outline.tsx:49 | the message takes the typed text; nothing else changes |
| ChatInputWithoutOutline.Typewriter.HandleSubmit | src/components/chat-input-without-outline.tsx:14-21 | accepted exactly when the message is not blank and nothing is being typed; then typing restarts from an empty reply at index 0; otherwise nothing changes |
| ChatInputWithoutOutline.Typewriter.HandleClear | src/components/chat-input-without-outline.tsx:23-25 | the message is emptied; nothing else changes |
| ChatInputWithoutOutline.Typewriter.Tick | src/components/chat-input-without-outline.tsx:27-38 | one tick is exactly `Step`: the next code unit is typed, or, once all are out, typing stops; the typed-prefix invariant is kept |

Each module ends with client methods that call its operations on concrete
inputs. The verifier proves the outcomes they assert:

- a streamed answer in two chunks;
- a 500 followed by a new, accepted submission;
- a second submission during streaming;
- a preset prompt;
- the e-mail pattern on three strings;
- an invalid and then a valid contact submission;
- the typewriter typing "hi";
- the typewriter typing an emoji in two ticks.

Some consequences of the code as written:

- The chat loop's `if (value)` counts any present chunk, even an empty one,
  as the first chunk. The model follows that.
- An ok stream that closes before any value arrives leaves the loading flag
  on. The `Receive` contract states this (`isLoading == old(isLoading) &&
  !AnyValue(seen)`).
- A failure during the stream replaces the partial text with the error.

## Left out

- Network, decoding, environment: `fetch`, `response.json()`, `reader.read()`
  and `TextDecoder` are foreign calls. Their results are parameters (`Response`,
  `SendOutcome`, an opaque `decode`). The environment is the `Env` parameter.
- UTF-8 buffering across chunk boundaries: each chunk is decoded on its own,
  because the code calls `decode(value)` without the streaming option.
- A response without a body: `reader!.read()` on an absent reader throws a
  `TypeError` whose message depends on the engine. Every response is modelled
  with a body.
- A `detail` that is not a string: only a missing or string `detail` is
  modelled, and `||` falls back on `undefined` and `""`. A `response.json()`
  that rejects is the `Threw` outcome.
- The React runtime: setters are direct assignments in program order. Batching
  and effect scheduling are not modelled.
- Stale closures are not modelled: `Settle` writes the form error over the
  current errors, while the code spreads the `errors` captured at submit time.
  The two differ only if a field is edited while the request is pending.
- Timers: the 100 ms delay of a prompt click and the 50 ms typing tick are
  immediate steps. The timer cleanup is not modelled.
- Concurrent prompt submissions: `HandlePromptClick` submits at once, under
  the guard of the current state. The source's timer calls the
  `handleSubmit` of the render in which the prompt was clicked, which still
  sees `isStreaming` false. So a second click, or an Enter in the input,
  within those 100 ms passes the guard a second time, and two read loops
  then write the display. That interleaving is not represented. The single
  submission that `HandleSubmit` and `HandlePromptClick` guarantee does not
  cover it.
- Mid-stream edits in the simulated chat box: its input is not disabled
  during typing, and such an edit can carry the index past the message. The
  typing lemmas assume the message is fixed while it is typed.
- Code units outside the simulated chat box: elsewhere strings are
  sequences of characters. Nothing else there counts or indexes code units.
  The e-mail pattern, which without the `u` flag reads code units, accepts
  the same strings either way: a surrogate is never white space (`Js.IsSpace`
  holds only inside the Basic Multilingual Plane). This equivalence is not
  proved.
- The greeting's code units (`GreetingUnits`) are its characters taken one
  by one. That is its UTF-16 form because its text is plain ASCII.
  `Js.BmpUnitsAreUtf16` proves this for every string inside the Basic
  Multilingual Plane. It is not proved for this literal, which is too long
  for the verifier to check character by character.
- The disabled state of the buttons, rendering, Markdown, styling and
  animations are presentation and are not modelled.
- Translations: `t(key)` is represented by the key itself.
- `console.error` logging is not part of this model.
- The presentation-only files (`App.tsx`, `Navbar.tsx`, `ProjectList.tsx`,
  `AboutMeSection.tsx`, `Footer.tsx`, `BackgroundShapes.tsx`,
  `NavButton.tsx`, `ProjectCard.tsx`, `CustomLink.tsx`, `Logo.tsx`,
  `TypewriterText.tsx`) are not part of this model.
