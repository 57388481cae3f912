# TeamsPresence core, modelled in Dafny

TeamsPresence polls a user's presence from the Microsoft Graph presence
endpoint and switches an Elgato Key Light on while the user is in a call or
presenting. This project models the deterministic core of
`teams_presence.py`:

- **the poll loop** of `main` as a pure step over an immutable state
  (`accessToken`, `tokenExpiry`, `lastStatus`). It covers token renewal
  strictly after the assumed expiry, with a fixed assumed lifetime of 3300
  seconds. It covers the defaulting of missing presence fields to
  `PresenceUnknown` and the classification of the lower-cased activity
  against the four listed words. It covers the debounce that commands the
  light only when the classification differs from the last one commanded.
  A failed presence read leaves everything but the token alone
  (`PollLoop`, `Presence`, `Ascii`);
- **the light payload** `{"lights": [{"on": 0|1}]}`, which always names the
  absolute state wanted (`KeyLight`);
- **the PEM line selection** that precedes the thumbprint computation: a
  loop over the file's lines and a reference definition by first-occurrence
  indices, proved equal (`CertLines`).

Clocks, the token service, the presence request and the light request are
inputs and outputs of the step. Each iteration receives a `Tick` with the
clock read for the expiry test, the clock read after a renewal, the token a
renewal would obtain and the presence document. The document is `None` when
`get_presence` returns `None`: the response had an error status, its body
did not decode as JSON, or the body was JSON `null` (teams_presence.py:54-60). It returns the new state, the token the presence request carried and
the command given to the light, if any. `Run` iterates the step over a finite
sequence of ticks.

Three behaviours of the program are easy to misread:

- `lastStatus` is updated whether or not the PUT succeeds, because
  `keylight_set_on` swallows its errors and returns nothing
  (teams_presence.py:65-70, 91-93). A failed command is not retried until
  the classification changes again.
- The listed words are `inacall`, `inaudiocall`, `inmeeting` and
  `presenting`. The presence service reports a meeting as `InAMeeting`,
  which lower-cases to `inameeting`. That word is not listed, so a meeting
  leaves the light off. `Presence.ServiceSpellings` and
  `Scenarios.MeetingScenario` state this.
- Renewal happens only when the clock is strictly past the stored expiry. At
  the expiry instant the old token is still used.

## Model

| member | source | states |
|---|---|---|
| Ascii.LowerEqualsIffMatches | teams_presence.py:89 | lower-casing a string gives a lower-case word exactly when the string spells that word in some mixture of cases |
| Presence.Field | teams_presence.py:85-86 | a present field yields its value; a missing field yields `PresenceUnknown` |
| Presence.InCallIffMatchesListedWord | teams_presence.py:89-90 | the light is wanted on iff the activity spells one of `inacall`, `inaudiocall`, `inmeeting`, `presenting` ignoring case, in both directions |
| Presence.UnknownIsOff | teams_presence.py:86-89 | the default `PresenceUnknown` classifies as off |
| Presence.MissingActivityIsOff | teams_presence.py:86-89 | a presence document without `activity` classifies as off |
| Presence.ServiceSpellings | teams_presence.py:89 | `InACall`, `Presenting` and `InMeeting` classify as on; `InAMeeting` and `Available` classify as off |
| KeyLight.OnField | teams_presence.py:64 | the `on` field is 0 or 1, and it is 1 exactly when the light is wanted on |
| KeyLight.PayloadRequestsItsState | teams_presence.py:62-64 | the body built for a state asks for that state, whatever the light's current state; the bodies for on and off differ |
| KeyLight.RequestedThenPayload | teams_presence.py:64 | every well-formed single-light body is the body built for the state it asks for |
| PollLoop.Init | teams_presence.py:74-76 | the loop starts with the first token, an expiry 3300 seconds after the start clock, and no last status |
| PollLoop.Step | teams_presence.py:78-95 | the token is renewed iff the clock is strictly past the expiry, with the new expiry 3300 after the renewal clock, and is otherwise kept; the presence request carries the current token; a failed read issues no command and keeps the last status; a successful read commands the light iff its classification differs from the last status, and always leaves the last status equal to that classification |
| PollLoop.RunIsTransitions | teams_presence.py:78-97 | over any sequence of iterations the commands are exactly the changes along the classified successful polls, failed polls ignored; the final last status is the last classification |
| PollLoop.TransitionsCountFrom | teams_presence.py:91-93 | from a known last status, the number of commands equals the number of adjacent changes along the last status followed by the classifications |
| PollLoop.TransitionsCountFromStart | teams_presence.py:75-93 | from the unset start, a non-empty run of classifications gives one command plus one per adjacent change |
| PollLoop.RunCommandCount | teams_presence.py:75-93 | over any run from startup with at least one successful poll, the number of light commands is one plus the number of adjacent changes among the classifications |
| PollLoop.TransitionsAlternate | teams_presence.py:91-93 | consecutive commands always differ; the first differs from the last status; the last command is the last classification; no command at all means the last status already equals the last classification |
| PollLoop.FirstPollActuates | teams_presence.py:75-92 | the first successful poll after startup always commands the light, with its classification |
| PollLoop.RequestTokenUnexpired | teams_presence.py:79-83 | when the clock does not run backwards within an iteration, the token used for the presence request is not past its assumed expiry |
| PollLoop.NoRenewalWithinLifetime | teams_presence.py:79-81 | after a renewal, no iteration at or before 3300 seconds past the renewal clock renews again |
| PollLoop.AvailabilityIrrelevant | teams_presence.py:85-93 | changing or removing `availability` never changes the outcome of an iteration |
| Scenarios.DebounceExample | teams_presence.py:83-95 | classifications off, off, on, on, off with a failed read in between give exactly the commands off, on, off |
| Scenarios.MeetingScenario | teams_presence.py:89-93 | `InAMeeting` followed by `Available` twice gives the single command off |
| Scenarios.RenewalBoundary | teams_presence.py:76-81 | at clock 3300 after a start at 0 the token is kept; at 3301 it is replaced, with expiry 3300 after the renewal clock |
| CertLines.ContainsIffOccurs | teams_presence.py:26-30 | the byte-substring test holds exactly when the pattern occurs at some start position of the line |
| CertLines.FirstWith | teams_presence.py:25-30 | the index returned is of a line containing the marker, and no earlier line contains it, or it is the line count when none does |
| CertLines.CollectCertLines | teams_presence.py:23-31 | the lines collected by the loop are exactly the reference selection: from the first BEGIN line through the first END line, or nothing when an END line comes first |
| CertLines.CertSliceContiguous | teams_presence.py:23-31 | the selection is a contiguous slice of the input lines |
| CertLines.CertSliceStartsAtBegin | teams_presence.py:25-29 | a non-empty selection starts at the first line containing BEGIN, and no earlier line contains BEGIN |
| CertLines.CertSliceEndOnlyLast | teams_presence.py:28-31 | no selected line but the last contains END |
| CertLines.CertSliceEndsAtEnd | teams_presence.py:28-31 | when the input has an END line, a non-empty selection ends at the first one |
| CertLines.CertSliceWithoutEnd | teams_presence.py:25-29 | when the input has no END line, the selection runs from the first BEGIN line to the end of the input |
| CertLines.CertSliceEmptyIff | teams_presence.py:23-31 | the selection is empty exactly when every BEGIN line comes after some END line, including an END line before any BEGIN line |

## Left out

- Reading the five settings from the environment (teams_presence.py:8-18): ambient process state; the model takes the token, clocks and presence as inputs and needs no setting.
- Token acquisition with a certificate credential (teams_presence.py:38-45): a foreign library and a network call; a renewal receives its token as `Tick.freshToken`. A failing acquisition raises and ends the process; that path is not modelled.
- The presence GET and the light PUT (teams_presence.py:47-60, 66-70), including status checks, JSON decoding and the swallowed light errors: network I/O. Presence is `Option<PresenceDoc>` and the light call is the emitted command.
- The presence paths that end the process or never return: `requests.get` (teams_presence.py:53) sits outside the `try`, so a connection or DNS failure raises out of `main`; a body that decodes to a non-object, such as a list, makes `.get` (teams_presence.py:85) raise; and the GET has no timeout, so it can block forever. `Step` covers only iterations that complete.
- Presence.PresenceDoc: holds only string-valued fields; a non-string or `null` activity makes the source's `.lower()` raise, which is outside the modelled behaviour.
- Ascii.Lower: folds only `A`..`Z`, not the whole of Unicode as Python's `str.lower()` does.
- Reading the PEM file, X.509 parsing and the SHA-1 fingerprint (teams_presence.py:21-22, 32-36): file I/O and foreign cryptography; only the line selection is modelled.
- `time.time()` and `time.sleep(5)` (teams_presence.py:76, 79, 81, 97): clocks are whole-second integer inputs (the source's are floats) and there is no sleeping.
- The endless loop: `Run` covers any finite prefix of iterations.
- All diagnostic printing, including the availability and activity line.
