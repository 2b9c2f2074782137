# alien-cam core in Dafny

alien-cam is an Android/Termux camera server in Go. Its `main` serves
still pictures over HTTP through five `net/http` handlers. webrtc.go
also holds a WebRTC signalling handler (`handleWebSocket`, written for
gin), but `main` does not wire it in: nothing constructs a
`WebRTCManager`. This project models and proves two small, sequential
cores: the signalling handler as written, and the server's helpers.

**WebRTC signalling (webrtc.go).** `WebRTCManager` keeps a registry that
maps a peer id to a pion peer connection. The registry changes in two
places only:

- An `"offer"` creates a fresh connection and stores it under the peer
  id. Any connection already there is overwritten and is not closed.
- Removal closes the stored connection and then deletes its entry.

The websocket loop reads messages until the first read error and
dispatches them on their `type`:

- `"offer"` runs the offer/answer steps. An `"answer"` is written back
  only when every step succeeds.
- `"ice-candidate"` is a lookup only.
- `"answer"` is only logged.
- Any other type is ignored.

The connection-state callback removes the entry under the id it captured,
on `Failed` or `Closed` only. So a connection that a later offer replaced
still removes, and closes, its successor when it fails
(`OnConnectionStateChange`).

A repeated offer does not reuse the existing connection. The code always
creates a new one and overwrites the entry without closing the old one,
and the model follows the code.

**Server helpers (main.go).**

- `isValidIP` is a purely textual check for four dot-separated groups of
  1 to 3 ASCII digits. It accepts groups above 255, so it is weaker than
  dotted-decimal IPv4 notation.
- `getLocalIP` picks the first acceptable answer of four shell probes,
  tried in the order route, `hostname -I`, addr, ifconfig.
- `handleStream` chooses the headline of its placeholder picture from
  markers in the capture error. The `fmt.Fprintf` template of that picture
  writes its colours as `%23…`, which `fmt` reads as directives, so the
  headline never appears as text in the picture (see Findings).
- `getTempDir` and `isAndroidEnvironment` read the environment.
- `handleStartCamera` and `handleStopCamera` toggle
  `CameraServer.running`.

Everything external is a parameter: environment variables, the capture
result, the probe outputs, and the verdicts of the pion library and of
JSON decoding. main.go is built only for Android (`//go:build android`),
so in the shipped program the Android branch is always taken.
`AndroidBuildIgnoresTmpDir` states this.

Files: `wrappers.dfy` (Option), `text.dfy` (Go string helpers),
`go_format.dfy` (`fmt.Fprintf` on string arguments),
`platform.dfy`, `host_address.dfy`, `camera.dfy`, `signaling.dfy` (the
message vocabulary and the specification of one websocket session) and
`webrtc.dfy` (the registry class and its methods).

## Model

| member | source | states |
|---|---|---|
| Text.Split | main.go:689 | `strings.Split` on '.': at least one piece, no piece contains the separator, and joining the pieces with it gives back the input |
| Text.SplitJoinRoundTrip | main.go:689 | splitting undoes joining when no piece contains the separator |
| Text.ContainsAt | main.go:445-449 | `strings.Contains(s, t)` holds exactly when `t` occurs at some position of `s` |
| Platform.IsAndroidEnvironment | main.go:605-607 | `isAndroidEnvironment`: $TERMUX is non-empty or GOOS is "android" |
| Platform.TempDir | main.go:610-624 | never empty; on Android it is $HOME, or Termux's home when $HOME is empty; elsewhere it is $TMPDIR, or /tmp when $TMPDIR is empty |
| Platform.AndroidBuildIgnoresTmpDir | main.go:605-617 | when GOOS is "android" (the only build target), the environment counts as Android whatever $TERMUX is, and the directory never depends on $TMPDIR |
| HostAddress.IsValidIP | main.go:688-704 | `isValidIP`: the '.'-split has exactly four pieces, each 1 to 3 ASCII digits |
| HostAddress.ValidIPShape | main.go:688-704 | an accepted string is four 1-to-3-digit groups around three dots: 7 to 15 characters, all digits or dots |
| HostAddress.ValidIPFromGroups | main.go:688-704 | any four groups of 1 to 3 digits joined by dots are accepted, whatever their numeric value, and splitting gives the groups back |
| HostAddress.AcceptsOutOfRangeGroups | main.go:693-703 | a group above 255 is still accepted, so the check is weaker than dotted-decimal notation |
| HostAddress.NinesAcceptedButNotDottedDecimal | main.go:688-704 | "999.999.999.999" passes `isValidIP` although it is not an IPv4 address |
| HostAddress.LocalhostIsNotValidIP | main.go:653 | "localhost" already fails `isValidIP`, so the extra "localhost" test never changes the outcome |
| HostAddress.IsUsableHost | main.go:653 | a `hostname -I` field is shown only if it passes `isValidIP`, is not "localhost" and does not start with "127." |
| HostAddress.FirstUsableHost | main.go:651-656 | the result is the first `hostname -I` field that passes `isValidIP`, is not "localhost" and does not start with "127."; it is None exactly when no field qualifies |
| HostAddress.AcceptedOutput | main.go:640-642 | a single-line probe output is offered exactly when it is present, not the rejected value and passes `isValidIP` (which already rules out the empty output) |
| HostAddress.ProbeAnswers | main.go:636-682 | what each probe offers, in order, in both directions: the route output exactly when it passes `isValidIP` and is not "0.0.0.0"; the first usable `hostname -I` field; the addr and the ifconfig output exactly when they pass `isValidIP`; every offered address passes `isValidIP` |
| HostAddress.LocalIP | main.go:634-685 | off Android the result is always "localhost". On Android it is the answer of the first probe that offers one, in the order route, hostname, addr, ifconfig, and "localhost" exactly when no probe offers an address |
| Camera.StreamErrorMessage | main.go:444-451 | the headline is one of the four messages; the first marker found decides, in the order "termux:api not available", "camera info failed", "camera capture failed"; with no marker it is "Cámara no disponible" |
| GoFormat.Render | main.go:453-467 | `fmt.Fprintf` on string arguments: each `%[width]verb` takes the next argument; `%s`/`%v` print it padded to the width, any other verb prints `%!verb(string=…)`, a directive with no argument left prints `%!verb(MISSING)`, and leftover arguments are reported as `%!(EXTRA …)` |
| Camera.RenderAsWrittenShape | main.go:453-467 | with `%231a`, `%s`, `%23f`, `%s`, `%23c` and `%23"` as directives, the first argument lands in a bad-verb report, the second under the icon, and the last four directives find no argument |
| Camera.RenderIntendedShape | main.go:453-467 | with the colours written as `#…`, the two `%s` receive the headline and the error text in order |
| Camera.StreamResponseAsWritten | main.go:432-479 | a successful capture is sent unchanged; a failed one gives the garbled picture: the classified headline inside the background's fill attribute, the raw error text under the icon, `%!s(MISSING)` after "Error: " |
| Camera.PlaceholderTemplateIsGarbled | main.go:453-467 | for every failed capture the picture sent differs from the intended placeholder |
| Camera.GarbledIsNotPlaceholder | main.go:453-467 | the garbled picture never equals the intended one, whatever the headline and error text |
| Camera.StreamResponse | main.go:432-479 | corrected template: a successful capture is sent as the JPEG unchanged; a failed one gives the placeholder picture with the classified headline under the icon and the raw error text after "Error: " |
| Camera.CameraServer.constructor | main.go:31-33 | a new server is not running |
| Camera.CameraServer.HandleStartCamera | main.go:493-518 | `running` becomes true only when the trial capture succeeds and is unchanged on failure; the reply is 200 "started", or 400 "error" carrying the error text |
| Camera.CameraServer.HandleStopCamera | main.go:520-527 | `running` becomes false unconditionally and the reply is "stopped" |
| Signaling.DeliveredIsLeadingReads | webrtc.go:111-117 | the dispatched messages are exactly the successful reads before the first read error |
| Signaling.ReadErrorEndsLoop | webrtc.go:113-117 | nothing after a read error is dispatched |
| Signaling.RegisteredIdsAreCreatedOffers | webrtc.go:121-123 | an id is registered during a session exactly when some offer for it got a new connection |
| Signaling.RepliesAnswerNegotiatedOffers | webrtc.go:165-172 | every reply has type "answer" and answers a fully negotiated offer, with the same peer id and that offer's answer description |
| Signaling.NegotiatedOfferIsAnswered | webrtc.go:141-172 | every offer whose steps all succeed is answered |
| Signaling.OnlyOffersMatter | webrtc.go:121-128 | messages of type "answer", "ice-candidate" or any other type neither register a peer nor produce a reply |
| WebRTC.WebRTCManager.constructor | webrtc.go:27-36 | the registry starts empty |
| WebRTC.WebRTCManager.CreatePeerConnection | webrtc.go:38-88 | on success a fresh open connection is stored under the id; a previous one there is dropped without being closed; all other entries and connections are unchanged; on failure nothing changes |
| WebRTC.WebRTCManager.RemovePeerConnection | webrtc.go:90-99 | the entry is deleted and its connection closed; an absent id changes nothing (so a second call is a no-op); other entries are untouched |
| WebRTC.WebRTCManager.OnConnectionStateChange | webrtc.go:76-81 | on Failed or Closed it removes the entry under the captured id, even when that entry is a newer connection, and closes it; every other state leaves the registry unchanged |
| WebRTC.WebRTCManager.HandleOffer | webrtc.go:132-175 | the fresh connection stays registered even if decoding, SetRemoteDescription, CreateAnswer or SetLocalDescription fails; a reply is produced exactly when all steps succeed, with type "answer", the same peer id and the created answer |
| WebRTC.WebRTCManager.HandleICECandidate | webrtc.go:182-202 | a lookup only: an unknown id ends in PeerNotFound, otherwise the outcome follows decoding and AddICECandidate; it never changes the registry and never replies |
| WebRTC.WebRTCManager.Dispatch | webrtc.go:121-128 | an offer registers (when the connection is created) and may reply; "answer", "ice-candidate" and unknown types leave the registry unchanged and write nothing |
| WebRTC.WebRTCManager.HandleWebSocket | webrtc.go:111-129 | after the loop, the replies are exactly the answers for the messages read before the first error. The registry is the old one with a fresh connection stored under each registered id; the loop itself removes no entry and leaves every other entry unchanged (no connection changes state during the session, see Left out) |

## Findings

| source | as written | input that shows it | evidently intended | confidence | as-written member | corrected member |
|---|---|---|---|---|---|---|
| main.go:453-467 | the SVG colours are written `%231a1a2e`, `%23ff6b6b`, `%23ccc`, `%23999"`; `fmt` reads each `%23…` as a width and a verb, so `%231a` takes the headline as a bad verb, the `%s` under the icon takes the error text, and "Error: %s" prints `%!s(MISSING)` | any failed capture, e.g. the error text "termux:api not available": the headline "Termux:API no instalado" appears only inside `fill="%!a(string=…)1a2e"` | colours written `#1a1a2e`, `#ff6b6b`, `#ccc`, `#999`, the headline under the icon and the error text after "Error: " | not executed | Camera.StreamResponseAsWritten | Camera.StreamResponse |

## Left out

- The HTML page (`handleHome`) and the HTTP headers: UI and presentation.
- GoFormat.Render: covers only what the placeholder template uses. `%q`, `%x`, `%X`, `%T`, flags, precision and explicit argument indexes are not modelled. The template is cut into text and directives by hand rather than parsed from the format string.
- `main`, the HTTP routing, `ListenAndServe` and `handleStatus`: I/O plumbing; `handleStatus` reads the wall clock.
- `captureImage`, `isCommandAvailable` and the shell pipelines of `getLocalIP`: these are external processes and file-system access. Their results are parameters (`Capture`, `Probes`).
- `strings.TrimSpace` and `strings.Fields` in `getLocalIP`: the probe outputs are passed in already trimmed and split into fields.
- Pion internals. Each pion call (NewPeerConnection, SetRemoteDescription, CreateAnswer, SetLocalDescription, AddICECandidate) is an input verdict, and so is JSON decoding of a payload. A connection is reduced to its closed flag. The STUN server configuration is not modelled.
- The `OnTrack` read loop and the `OnICECandidate` callback: they only drain the stream and log.
- The websocket upgrade, `CheckOrigin`, `ReadJSON`/`WriteJSON` framing and `conn.Close`: transport I/O. A failed write is only logged, so a reply counts as written once it is produced.
- The mutex and concurrency. The registry is modelled sequentially, and `OnConnectionStateChange` is a call made outside a websocket session. A `Closed` notification that pion may raise after `Close()` is not generated automatically.
- WebRTC.WebRTCManager.HandleWebSocket: it dispatches its whole inbox with no point where a state-change callback can run. Its promise that no entry is removed therefore covers only a session during which no connection changes state. In the program, the callback at webrtc.go:76-81 can remove entries while the loop at webrtc.go:111-129 runs.
- `handleAnswer` and `startVideoCapture`: they only log. `handleAnswer` appears as the no-op branch of `Dispatch`.
- Log output.
- HostAddress.ValidIPShape: Go's `len(part)` counts bytes and the model counts characters. The verdict is the same either way, because a non-ASCII character fails the digit test anyway.
