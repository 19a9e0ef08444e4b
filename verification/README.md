# rust-gemini: the event loop and the Gemini request shaping

This project is a Dafny model of the two parts of rust-gemini that have
exact, integer-only behaviour. rust-gemini is a terminal chat client for
Google's Gemini `generateContent` API.

- `app.dfy`, module `TerminalApp` (models `src/main.rs`). The `App` object
  has an exit flag and the text of its input field. `HandleEvents` computes
  the poll timeout: 50 ms minus the time since the loop started, clamped at
  zero. It then dispatches one key: `'q'` exits, Enter calls the
  `submit_input` stub, and everything else is ignored. `Run` loops: it checks
  the exit flag, draws, then handles events. Terminal I/O is an input here:
  each iteration is a `Step` with the elapsed milliseconds, an optional draw
  failure, and what the poll produced (nothing, an event, or an I/O error).
  The pure function `Drive` gives the loop's outcome, the number of frames
  drawn and the timeouts used, and `Run` is proved against it.
- `gemini.dfy`, module `Gemini` (models `src/gemini.rs`). It holds the
  decoded response records, the option checks of `Gemini::new`, the endpoint
  URL, the request body, and the flattening of a reply into answer texts.
  Sending the request, reading the reply and decoding its JSON are one
  external `exchange` function, which `Ask` takes as a parameter.
- `wrappers.dfy`, module `Wrappers`: `Option` and `Result`.

The code keeps the application small. `submit_input` returns `Ok(())` and
does nothing else (src/main.rs:118-120). No event handler writes the input
field (src/main.rs:103-111). `run` never calls `Gemini::ask`. So in the
model the input field stays empty and Enter changes nothing.

## Model

| member | source | states |
|---|---|---|
| `TerminalApp.Timeout` | src/main.rs:97-99 | the timeout is at most 50 ms; it is 50 minus the elapsed time below 50 ms, and exactly 0 from 50 ms on |
| `TerminalApp.TimeoutAntitone` | src/main.rs:97-99 | more elapsed time never gives a longer timeout |
| `TerminalApp.App.constructor` | src/main.rs:130-135 | a new app is not exiting and its input field is empty, as `InputField::default` (src/main.rs:53-57) makes it |
| `TerminalApp.App.Exit` | src/main.rs:122-124 | sets the exit flag and leaves the input unchanged |
| `TerminalApp.App.SubmitInput` | src/main.rs:118-120 | submitting changes nothing (no `modifies`) and always returns `Ok` |
| `TerminalApp.App.HandleEvents` | src/main.rs:96-116 | polls with `Timeout(elapsed)`; the exit flag afterwards is set exactly when it was set before or the event was key `'q'`; Enter, other keys, non-key events and an empty poll change nothing; the input never changes; a failed poll or read is returned as the error |
| `TerminalApp.Drive` | src/main.rs:75-83 | the loop draws at most one frame per iteration and polls at most once per frame; it ends without exiting only after it has used up every iteration with no error |
| `TerminalApp.App.Run` | src/main.rs:72-84 | the loop's status, frame count and timeouts are `Drive` of the initial exit flag and the iterations; afterwards the exit flag is set exactly when the loop ended through the quit key; the input is unchanged |
| `TerminalApp.Launch` | src/main.rs:127-145 | a fresh app run over any iterations ends with `Drive(false, …)`, and its input field is still empty |
| `TerminalApp.TimeoutsOfSteps` | src/main.rs:82 | iteration k polls with the timeout of its own elapsed time, because the tick start is fixed before the loop |
| `TerminalApp.TimeoutsShrink` | src/main.rs:73-99 | when the clock does not go back, the timeouts of successive iterations never increase |
| `TerminalApp.ExitsAfterFirstQuit` | src/main.rs:75-83 | if the iterations before k neither fail nor read `'q'`, and iteration k reads `'q'`, the loop exits after drawing exactly k + 1 frames |
| `TerminalApp.RunsOnWithoutQuit` | src/main.rs:75-83 | without errors and without `'q'`, the loop runs through every iteration, drawing one frame per iteration, and does not stop |
| `TerminalApp.ExitNeedsQuit` | src/main.rs:103-111 | without a `'q'` among the events, the loop never ends as `Exited` |
| `TerminalApp.ExitComesFromFirstQuit` | src/main.rs:75-83 | a loop that ends as `Exited` after drawing n frames read its first `'q'` in iteration n - 1, and every earlier iteration neither failed nor read `'q'` |
| `Gemini.New` | src/gemini.rs:76-90 | succeeds if and only if both options are present; a missing key is reported before a missing model; on success it stores both strings unchanged |
| `Gemini.Url` | src/gemini.rs:93-96 | the URL begins with the fixed endpoint prefix, and its length is the sum of the lengths of the prefix, model, method marker and key |
| `Gemini.UrlRoundTrip` | src/gemini.rs:93-96 | when the model name has no `:`, the model and the key can be read back from the URL exactly (`ParseUrl`, whose accepted URLs are all `Url` of their result) |
| `Gemini.RequestFor` | src/gemini.rs:98-105 | the body holds exactly one message, with role `"user"`, holding exactly one part whose text is the prompt |
| `Gemini.PromptOf` | src/gemini.rs:98-105 | a body has a prompt exactly when it has the shape `RequestFor` builds, and then it is `RequestFor` of that prompt |
| `Gemini.PrepareRequest` | src/gemini.rs:93-111 | the request carries exactly the prompt, has the JSON content type, and addresses the client's model and key |
| `Gemini.Texts` | src/gemini.rs:121 | the texts of a candidate's parts: one per part, in part order |
| `Gemini.Flatten` | src/gemini.rs:118-122 | the answer has one text for each part of each candidate |
| `Gemini.Answer` | src/gemini.rs:118-122 | the answer's length is the total number of parts in the reply |
| `Gemini.Ask` | src/gemini.rs:92-123 | a failed exchange gives its own error back; a successful one gives `Ok` of the reply's flattened `Answer`, so `FlattenAt`, `FlattenAppend` and `AnswerIgnoresMetadata` describe its contents |
| `Gemini.FlattenAt` | src/gemini.rs:118-122 | part j of candidate i sits at position (parts of candidates before i) + j of the answer: candidate order first, then part order |
| `Gemini.FlattenAppend` | src/gemini.rs:118-122 | the answer for two candidate lists joined together is the two answers joined together |
| `Gemini.EmptyCandidateContributesNothing` | src/gemini.rs:118-122 | a candidate with no parts does not change the answer, wherever it stands |
| `Gemini.AnswerIgnoresMetadata` | src/gemini.rs:118-122 | two replies whose candidates have the same part texts give the same answer, whatever their finish reasons, indices, safety ratings, roles and usage metadata |
| `Gemini.AskNoCandidates` | src/gemini.rs:118-122 | a reply with no candidates gives `Ok` of an empty answer, not an error |

## Left out

- Terminal setup and restore (`tui::init`, `tui::restore`) are left out because they are terminal I/O. The `tui` module is not part of this model.
- `event::poll` and `event::read` become the `poll` field of each `Step`. The model does not let the event that arrives depend on the timeout.
- Drawing (`render_ui`, `Layout`, the `Widget` impls of `ResponseWindow` and `InputField`) is left out because it is rendering through ratatui. Only whether `terminal.draw` failed is kept. `ResponseWindow` is written only by its constructor and read only by rendering, so it is left out too.
- The unused `show_input` field and the greeting `println!` in `main` are left out.
- `TerminalApp.Timeout`: time is counted in whole milliseconds. `Duration` counts in nanoseconds, so sub-millisecond parts of the timeout are not modelled.
- `TerminalApp.App.Run`: the source loops until `'q'` or an error. Given a finite list of iterations, the model stops with `StillRunning` when the list runs out, and lets the caller supply more iterations if it wants them.
- `Gemini.Ask`: the HTTP post, the body read and `serde_json::from_str` are one caller-supplied `exchange` function. TLS, headers, the shared `Arc<Client>` and `async` are not modelled. `GeminiError`'s payloads (the reqwest and serde errors) are left abstract.
- `Gemini.New`: the source panics through `expect` when an option is missing. The model returns an error value saying which option was missing.
- `Candidate.index` and the token counts are `usize` in the source and `nat` here. They never affect a result.
