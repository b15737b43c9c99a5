# app-chat: a verified model of the client state machine and the server guards

app-chat is a small collaborative editor with a chat. A React client (`App`)
keeps the chat lines, the editor content, a change log and the name of the
user who is editing. It updates them from frames that arrive on a WebSocket
and sends frames of its own while the user types. An Express server
broadcasts posted chat frames to every open WebSocket, looks up users at
login, stores and exports the chat history, and guards file uploads and
downloads. A `ChangeLog` component shows the ten most recent change-log
entries, newest first.

The model has four modules:

- `Common`: `Option`, the `User` record, JavaScript falsiness of an optional
  string, and `endsWith`.
- `ChangeLog` (pure): `logs.slice(-10).reverse()` and the line format.
- `ClientApp`, in two parts:
  - Pure part: the `ws.onmessage` reducer `Receive`, its fold over a stream of
    frames, the chat-line and log-line formats, and save-name normalisation.
  - Imperative part: a `Client` class whose fields are the component's state
    cells. It also has three outboxes: `sent` (every `socket.send`), `posted`
    (every frame posted to `/api/message`) and `saves` (every
    `/api/save_doc` request). Each handler is a method whose `ensures` gives
    the whole new state. All methods keep `Valid()`, which is the debounce
    invariant: the "log" frames sent plus the pending log timer never
    outnumber the "editing" frames sent.
- `Server`: `PostMessage` is a loop over `Socket` objects that appends to each
  open socket's `received` outbox. Login, history, upload and download are
  pure functions. The file system is given to them as values: the user list,
  the stored history and the set of regular files present. Each write or move
  outcome is a boolean flag.

Inputs that stand in for the environment:
- A frame's JSON decoding (`Decoded`).
- The time strings from `toLocaleTimeString`.
- The name prompt's answer, the `confirm` result and whether a `fetch`
  completed.
- The content fetched when a document is opened, or the failure of that request.
- A socket's `readyState`.

Timers are events: `FireLogTimer` is the 3-second log timer firing, and
`AutosaveTick` is one tick of the 10-second autosave.

## What the code does not do

The server does not relay client frames, nothing clears an idle editor's
name, and several routes the client calls do not exist. The model follows
the code:
- The server's WebSocket handler only logs connections. So the frames the
  client sends with `socket.send` reach no one. The only frames that reach
  clients are those posted to `/api/message`.
- `editingUser` is set by an "editing" frame and is never cleared.
- The client calls `/api/save_doc`, `/api/list_docs`, `/api/open_doc` and
  `/api/export_doc`, but the server has none of them. The model only records
  what the client sends to them, or takes what it receives as a parameter.
  Against this server, opening a document always fails: Express answers the
  missing route with an HTML 404 page, which `res.json()` cannot decode. That
  is the `None` case of `OpenDocument`.
- `App.tsx` imports its change-log panel from `ChatLog`, so the `ChangeLog`
  component is not used. Its window is modelled as a standalone function.

## Model

| member | source | states |
|---|---|---|
| `ChangeLog.SliceFrom` | client/src/components/ChangeLog.tsx:17 | `slice(start)` returns a suffix of the array. With a negative start its length is min(-start, length); with a non-negative start it is the length minus min(start, length) |
| `ChangeLog.Reverse` | client/src/components/ChangeLog.tsx:17 | `reverse()` keeps the length, and element k of the result is element length-1-k of the input |
| `ChangeLog.Recent` | client/src/components/ChangeLog.tsx:17 | the displayed window has length min(10, len(logs)), and its entry k is logs[len(logs)-1-k], so the newest entry comes first |
| `ChangeLog.RecentKeepsShortLog` | client/src/components/ChangeLog.tsx:17 | with at most 10 entries nothing is dropped: the window is the whole log reversed |
| `ChangeLog.RecentAppend` | client/src/components/ChangeLog.tsx:17 | appending an entry puts it first. With fewer than 10 entries the rest keep their order; with 10 or more the last displayed entry is dropped |
| `ChangeLog.OldestDisplayed` | client/src/components/ChangeLog.tsx:17 | when the log is full, the last displayed entry (the one an append drops) is logs[len(logs)-10] |
| `ChangeLog.FormatLog` | client/src/components/ChangeLog.tsx:8-10 | a line is the time string, then " - ", then the entry, and each part can be read back at its offset |
| `ChangeLog.Rendered` | client/src/components/ChangeLog.tsx:17-19 | the rendered list has min(10, len(logs)) lines, and line k is FormatLog(time, logs[len(logs)-1-k]) |
| `ClientApp.Receive` | client/src/App.tsx:27-37 | one frame changes at most one of the four cells, since the tag tests exclude each other. The chat and the change log only grow, by at most one entry. The editing user is never cleared. An undecodable frame is appended raw. The per-tag lemmas below give the exact result for each tag |
| `ClientApp.ReceiveChat` | client/src/App.tsx:30 | a "message" frame appends its payload to the chat and leaves the editor, change log and editing user unchanged |
| `ClientApp.ReceiveEditor` | client/src/App.tsx:31 | an "editor" frame replaces the editor content with its payload and changes nothing else |
| `ClientApp.ReceiveLog` | client/src/App.tsx:32 | a "log" frame appends its payload to the change log and changes nothing else |
| `ClientApp.ReceiveEditing` | client/src/App.tsx:33 | an "editing" frame sets the editing user to its payload and changes nothing else |
| `ClientApp.ReceiveOther` | client/src/App.tsx:29-33 | a decoded frame with any other tag, or with no string tag, changes nothing |
| `ClientApp.ReceiveUndecodable` | client/src/App.tsx:34-36 | a frame that fails to parse, or throws when its type is read, is appended raw to the chat and changes nothing else |
| `ClientApp.ReceiveAllChat` | client/src/App.tsx:27-37 | over any stream of frames the chat only grows: it becomes the old chat plus, in order, the payload of each "message" frame and the raw text of each undecodable frame |
| `ClientApp.ReceiveAllLog` | client/src/App.tsx:32 | over any stream the change log becomes the old log plus the payloads of the "log" frames, in order |
| `ClientApp.ReceiveAllEditor` | client/src/App.tsx:31 | last write wins: after any stream the editor holds the payload of the last "editor" frame, or its old content if there was none |
| `ClientApp.ReceiveAllEditing` | client/src/App.tsx:33 | after any stream the editing user is the payload of the last "editing" frame, or its old value if there was none |
| `ClientApp.ChatLine` | client/src/App.tsx:59-60 | the chat line is `[`, the time, `] `, the sender's name, `: `, then the input, each at its offset |
| `ClientApp.ChatLineInjective` | client/src/App.tsx:60 | for one time and one sender, different inputs give different chat lines |
| `ClientApp.LogText` | client/src/App.tsx:141 | the debounced log text is the user's name followed by the fixed words " realizó cambios en el documento" |
| `ClientApp.NormalizeName` | client/src/App.tsx:160 | the result ends with ".txt" and starts with the name. It equals the name exactly when the name already ends with ".txt"; otherwise it is the name followed by all of ".txt" (so "a.tx" becomes "a.tx.txt") |
| `ClientApp.NormalizeNameIdempotent` | client/src/App.tsx:160 | normalising twice is the same as normalising once |
| `ClientApp.SaveName` | client/src/App.tsx:157-161 | a non-empty current file name is used as it is, without a prompt. Otherwise the name is the prompt's answer (a cancelled prompt counts as "") normalised by NormalizeName, so an answer already ending in ".txt" is kept unchanged |
| `ClientApp.SaveNameEmptyAnswer` | client/src/App.tsx:159-160 | an empty or cancelled prompt saves as ".txt" |
| `ClientApp.Client.constructor` | client/src/App.tsx:8-19 | every state cell starts empty or null, with no socket, no timer and nothing sent |
| `ClientApp.Client.SignIn` | client/src/App.tsx:193 | logging in sets the user and changes nothing else |
| `ClientApp.Client.SetSocketOpen` | client/src/App.tsx:21-41 | the socket, created once a user is logged in, enters or leaves the OPEN state, and nothing else changes |
| `ClientApp.Client.SetInput` | client/src/App.tsx:233 | the chat input takes the typed text, and nothing else changes |
| `ClientApp.Client.OnMessage` | client/src/App.tsx:27-37 | the four view fields move by `Receive`; the other fields and all outboxes are unchanged |
| `ClientApp.Client.EditorChange` | client/src/App.tsx:131-144 | the content always takes the new value. With an open socket and a user, exactly "editor"(value) then "editing"(name) are sent and the log timer is restarted, so one is outstanding. Otherwise nothing is sent and the timer is untouched. The debounce invariant is kept |
| `ClientApp.Client.FireLogTimer` | client/src/App.tsx:139-142 | the outstanding timer sends exactly one "log" frame "<nombre> realizó cambios en el documento", and no timer is left outstanding |
| `ClientApp.Client.SendMessage` | client/src/App.tsx:57-67 | nothing happens with an empty input or no user. Otherwise one "message" frame `[hora] nombre: input` is posted, and the input is cleared if the post completes |
| `ClientApp.Client.NewDocument` | client/src/App.tsx:146-154 | once confirmed, the content and file name are cleared, and with an open socket an empty "editor" frame is sent. Without confirmation nothing changes |
| `ClientApp.Client.SaveDocument` | client/src/App.tsx:156-168 | saves the content under SaveName. The file name is set only when it was empty |
| `ClientApp.Client.AutosaveTick` | client/src/App.tsx:43-55 | on a tick of the interval installed after login: with a file name and non-empty content, the content is saved under the current name; otherwise nothing changes |
| `ClientApp.Client.OpenDocument` | client/src/App.tsx:180-188 | when the request or its JSON decoding fails, nothing changes and nothing is sent. Otherwise the fetched content and the document's name replace the editor content and the file name, and with an open socket an "editor" frame is sent |
| `ClientApp.EditBurstSendsOneLog` | client/src/App.tsx:131-142 | three edits while connected, then the timer firing, send "editor" and "editing" frames three times each, in that order, followed by a single "log" frame; the editor holds the last edit |
| `Server.Socket.constructor` | server/index.js:18-23 | a newly connected client has its given ready state and has been sent nothing |
| `Server.MessageToSend` | server/index.js:27-28 | a missing or empty message sends nothing; otherwise the message itself is sent, unchanged |
| `Server.PostMessage` | server/index.js:26-37 | the reply's status is 400 for a missing or empty message, which reaches no client, and 200 otherwise. Then every OPEN client receives it verbatim exactly once, clients in other states receive nothing, no ready state changes, and the reply is `{sent: true}` |
| `Server.FindByEmail` | server/index.js:57 | the position found is the first user whose email is exactly equal; none is found only when no user matches |
| `Server.Login` | server/index.js:43-61 | each status holds exactly in its case: 400 for an empty email, before the user file is read; 500 for an unreadable user file; 401 when no user has exactly that email; and 200 when one does, in which case the reply carries the first such user |
| `Server.FirstMatchUnique` | server/index.js:57 | the first match is unique, so the user a login returns depends only on the email |
| `Server.SaveHist` | server/index.js:65-78 | status 400 exactly when `messages` is not an array, and then nothing is written; 500 exactly when the write fails, and the history stays as it was; 200 exactly when an array is written, and the history becomes `{mensajes: messages}` |
| `Server.ViewHist` | server/index.js:81-103 | status 404 exactly when there is no history, otherwise 200. `format=txt` gives the messages joined with "\n"; any other format gives the stored document |
| `Server.ViewHistReply.AttachmentName` | server/index.js:94-99 | a successful reply is named "historial" plus an extension: ".txt" exactly for the plain-text reply, ".json" exactly for the JSON one |
| `Server.ViewHistAttachment` | server/index.js:92-101 | a stored history is downloaded as "historial.txt" with `format=txt`, and as "historial.json" with any other format |
| `Server.SplitJoin` | server/index.js:93 | `Join` is JavaScript's `join`: for a non-empty list of messages without newlines, splitting the plain-text export at "\n" gives back the list |
| `Server.SaveThenView` | server/index.js:65-103 | after a successful save, viewing returns exactly the saved messages, as joined text or as the document |
| `Server.Upload` | server/index.js:111-131 | status 400 exactly when there are no files or the `file` field is strictly larger than 2*1024*1024 bytes; 500 exactly when the `file` field is missing (the TypeError of reading its name) or the move fails; 200 exactly when the file is moved to `archivos/<name>` |
| `Server.UploadSizeBoundary` | server/index.js:118-121 | the limit is 2097152 bytes: a file of exactly that size passes the size check, and one byte more is rejected |
| `Server.ContainsDotDot` | server/index.js:149 | `includes('..')` holds exactly when two adjacent characters are both '.' |
| `Server.Download` | server/index.js:146-161 | status 400 exactly when the name contains "..". Otherwise 200 with `archivos/<name>` sent under the same name when it is a regular file that exists and no segment of the name is a dotfile; 404 exactly when the file is missing, is a directory, or is a dotfile, which `res.download` ignores by default |
| `Server.DownloadRejectsBeforeAccess` | server/index.js:149-150 | a name with ".." is rejected whatever files exist |
| `Server.DownloadRefusesDotfile` | server/index.js:155-159 | `.env` is answered 404 even when `archivos/.env` exists |
| `Server.UploadThenDownload` | server/index.js:117-155 | a file uploaded under a name that has no ".." and is not a dotfile can be downloaded under that name |

## Left out

- Rendering: JSX, `Login.tsx`, `Chat.tsx` and `ChatLog.tsx` are presentation only. So are alerts, dialogs and anchor-click downloads.
- Transport: `fetch`, the WebSocket object, Express routing, CORS and the upload middleware. Requests and frames are abstract inputs, and sends are outbox appends.
- JSON parsing and serialisation: the decoding of a frame is an input (`Decoded`), and payloads are strings. Non-string payloads and non-string request fields are not modelled.
- Real time: the 3-second log timer and the 10-second autosave are the events `FireLogTimer` and `AutosaveTick`. `toLocaleTimeString` gives opaque strings.
- ChangeLog.Rendered: `formatLog` reads the clock once per entry. The model uses one time string for the whole render.
- ClientApp.Client.FireLogTimer: records the `send` call even if the socket it captured has closed in the meantime; in that case the browser discards the data.
- Client handlers outside the modelled core are not modelled, and neither are the two state cells they set:
  - `guardarHistorial` posts the chat to `/api/save_hist` and shows an alert.
  - `descargarHistorial` and `exportarDocumento` start a download through an anchor click.
  - `handleSubmit` posts the chosen file to `/upload` and shows an alert.
  - `handleFileChange` sets the `file` state cell to the chosen file. It makes no request.
  - `listarDocumentos` fetches `/api/list_docs` and sets the `availableDocs` state cell. It shows no alert. This includes the document list refresh after a save.
- ClientApp.Client.SendMessage: does not model the user editing the input while the post is in flight.
- Socket lifecycle: `ws.close` on unmount, and reconnection when the user changes. After login the user never changes.
- The server's WebSocket connection handler only logs. It is modelled as the existence of `Socket` objects.
- `GET /api/list` (server/index.js:136-143) returns a directory listing unchanged, or 500. It is a pure file-system wrapper and is not modelled.
- Server.SaveHist: a failed `writeFileSync` is modelled as leaving the stored history unchanged; whatever a partial write leaves on disk is not modelled.
- Server.ViewHist: a history file that exists but does not parse, which Express answers with 500, is not modelled. Neither is a repeated `format` query parameter.
- Server.Login: a user file without a `usuarios` field is treated as a file that cannot be read (500).
- Server.Download: the dotfile rule is applied to the segments of the requested name only. Dot-directories above `archivos` in the server's own path are not modelled, and neither are read errors on a file that is present, which `res.download` would also answer with 404.
- Server.Upload: several files under the field `file`, and the upload middleware's own processing of file names, are not modelled.
