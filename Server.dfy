/** The HTTP server: the endpoint that fans a chat frame out to every open
    WebSocket, the login lookup, the chat-history store and the upload and
    download guards. The file system is abstracted: the user list, the stored
    history and the files present are given as values, and the outcome of
    each write or move as a flag. */
module Server {
  import opened Common

  /** `WebSocket.readyState` */
  datatype ReadyState = Connecting | Open | Closing | Closed

  /** A connected WebSocket client of the server and what it has been sent. */
  class Socket {
    var readyState: ReadyState
    /** Every `client.send`, in order. */
    var received: seq<string>

    constructor (state: ReadyState)
      ensures readyState == state && received == []
    {
      readyState := state;
      received := [];
    }
  }

  // ---------------------------------------------------------------- /api/message

  datatype MessageReply = EmptyMessage | Sent
  {
    function Status(): nat
    {
      if EmptyMessage? then 400 else 200
    }
  }

  /** The text `/api/message` forwards: none for a missing or empty
      `message`, otherwise the field itself, unchanged. */
  function MessageToSend(message: Option<string>): (r: Option<string>)
    ensures r.None? <==> Falsy(message)
    ensures r.Some? ==> message == r && r.value != ""
  {
    if Falsy(message) then None else message
  }

  /** `POST /api/message` over `wss.clients` (a set, so no socket occurs
      twice, visited in insertion order). A missing or empty message is
      refused with 400 and reaches nobody; otherwise every socket that is OPEN
      receives the message verbatim exactly once, no other socket receives
      anything, and the reply is `{sent: true}`. */
  method PostMessage(clients: seq<Socket>, message: Option<string>) returns (reply: MessageReply)
    requires forall i, j :: 0 <= i < j < |clients| ==> clients[i] != clients[j]
    modifies clients
    ensures reply == if Falsy(message) then EmptyMessage else Sent
    ensures reply.Status() == if Falsy(message) then 400 else 200
    ensures forall i :: 0 <= i < |clients| ==> clients[i].readyState == old(clients[i].readyState)
    ensures forall i :: 0 <= i < |clients| ==>
      clients[i].received == if reply.Sent? && old(clients[i].readyState) == Open
                             then old(clients[i].received) + [message.value]
                             else old(clients[i].received)
  {
    var toSend := MessageToSend(message);
    if toSend.None? {
      return EmptyMessage;
    }
    var m := toSend.value;
    var k := 0;
    while k < |clients|
      invariant 0 <= k <= |clients|
      invariant forall i :: 0 <= i < |clients| ==> clients[i].readyState == old(clients[i].readyState)
      invariant forall i :: 0 <= i < k ==>
        clients[i].received == if old(clients[i].readyState) == Open
                               then old(clients[i].received) + [m] else old(clients[i].received)
      invariant forall i :: k <= i < |clients| ==> clients[i].received == old(clients[i].received)
    {
      var c := clients[k];
      if c.readyState == Open {
        c.received := c.received + [m];
      }
      k := k + 1;
    }
    reply := Sent;
  }

  // ---------------------------------------------------------------- /login

  datatype LoginReply = EmailRequired | ReadFailed | UnknownUser | LoggedIn(user: User)
  {
    function Status(): nat
    {
      match this
      case EmailRequired => 400
      case ReadFailed => 500
      case UnknownUser => 401
      case LoggedIn(_) => 200
    }
  }

  /** `i` is the position of the first user whose email is exactly `email`. */
  ghost predicate IsFirstMatch(usuarios: seq<User>, email: string, i: int)
  {
    0 <= i < |usuarios| && usuarios[i].email == email
    && forall j :: 0 <= j < i ==> usuarios[j].email != email
  }

  /** `usuarios.find(u => u.email === email)`, as the position found. */
  function FindByEmail(usuarios: seq<User>, email: string): (r: Option<nat>)
    ensures r.Some? ==> IsFirstMatch(usuarios, email, r.value)
    ensures r.None? ==> forall j :: 0 <= j < |usuarios| ==> usuarios[j].email != email
  {
    if usuarios == [] then None
    else if usuarios[0].email == email then Some(0)
    else match FindByEmail(usuarios[1..], email)
      case None => None
      case Some(k) => Some(k + 1)
  }

  /** `POST /login`. A missing or empty email is refused with 400 before the
      user file is read; a user file that cannot be read or parsed
      (`usuarios` is None) gives 500; otherwise the reply carries the first
      user whose email is exactly the one given, or is 401 when none is. */
  function Login(email: Option<string>, usuarios: Option<seq<User>>): (r: LoginReply)
    ensures r == EmailRequired <==> Falsy(email)
    ensures r == ReadFailed <==> !Falsy(email) && usuarios.None?
    ensures r == UnknownUser <==>
      (!Falsy(email) && usuarios.Some?
       && forall j :: 0 <= j < |usuarios.value| ==> usuarios.value[j].email != email.value)
    ensures r.LoggedIn? ==>
      (!Falsy(email) && usuarios.Some?
       && exists i :: IsFirstMatch(usuarios.value, email.value, i) && usuarios.value[i] == r.user)
    ensures r.Status() == 400 <==> Falsy(email)
    ensures r.Status() == 500 <==> !Falsy(email) && usuarios.None?
    ensures r.Status() == 401 <==>
      (!Falsy(email) && usuarios.Some?
       && forall j :: 0 <= j < |usuarios.value| ==> usuarios.value[j].email != email.value)
    ensures r.Status() == 200 <==>
      (!Falsy(email) && usuarios.Some?
       && exists i :: IsFirstMatch(usuarios.value, email.value, i))
  {
    if Falsy(email) then EmailRequired
    else if usuarios.None? then ReadFailed
    else match FindByEmail(usuarios.value, email.value)
      case None => UnknownUser
      case Some(i) => LoggedIn(usuarios.value[i])
  }

  /** Two lookups of the same email in the same user list agree: the user a
      login returns is determined by the email alone. */
  lemma FirstMatchUnique(usuarios: seq<User>, email: string, i: int, j: int)
    requires IsFirstMatch(usuarios, email, i) && IsFirstMatch(usuarios, email, j)
    ensures i == j
  {
  }

  // ---------------------------------------------------------------- history

  /** The content of `historial.json`: `{ mensajes: [...] }`. */
  datatype History = History(mensajes: seq<string>)

  datatype SaveHistReply = NotAnArray | WriteFailed | HistorySaved
  {
    function Status(): nat
    {
      match this
      case NotAnArray => 400
      case WriteFailed => 500
      case HistorySaved => 200
    }
  }

  /** A reply and the history file after the request. */
  datatype SaveHistResult = SaveHistResult(reply: SaveHistReply, stored: Option<History>)

  /** `POST /api/save_hist`. `messages` is None when the body's `messages` is
      not an array; `writeOk` is the outcome of `writeFileSync`. A non-array
      is refused with 400 and nothing is written; an array is stored as
      `{mensajes: messages}` replacing any previous history. */
  function SaveHist(stored: Option<History>, messages: Option<seq<string>>, writeOk: bool): (r: SaveHistResult)
    ensures r.reply == NotAnArray <==> messages.None?
    ensures r.reply == HistorySaved <==> messages.Some? && writeOk
    ensures r.reply == HistorySaved ==> r.stored == Some(History(messages.value))
    ensures r.reply != HistorySaved ==> r.stored == stored
    ensures r.reply.Status() == 400 <==> messages.None?
    ensures r.reply.Status() == 500 <==> messages.Some? && !writeOk
    ensures r.reply.Status() == 200 <==> messages.Some? && writeOk
  {
    if messages.None? then SaveHistResult(NotAnArray, stored)
    else if !writeOk then SaveHistResult(WriteFailed, stored)
    else SaveHistResult(HistorySaved, Some(History(messages.value)))
  }

  datatype ViewHistReply = NoHistory | PlainText(text: string) | JsonHistory(history: History)
  {
    function Status(): nat
    {
      if NoHistory? then 404 else 200
    }

    /** The `Content-Disposition` file name of a successful reply: the
        base name "historial" with the extension of the reply's format. */
    function AttachmentName(): (name: string)
      requires !NoHistory?
      ensures |name| > 9 && name[..9] == "historial"
      ensures EndsWith(name, ".txt") <==> PlainText?
      ensures EndsWith(name, ".json") <==> JsonHistory?
    {
      if PlainText? then "historial.txt" else "historial.json"
    }
  }

  /** `messages.join(sep)` as JavaScript defines it for strings; SplitJoin
      states what it preserves. */
  function Join(ms: seq<string>, sep: string): string
  {
    if |ms| == 0 then ""
    else if |ms| == 1 then ms[0]
    else ms[0] + sep + Join(ms[1..], sep)
  }

  /** `GET /api/view_hist`. No stored history gives 404; with `format=txt`
      the body is the messages joined by newlines, otherwise the stored
      document itself. */
  function ViewHist(stored: Option<History>, format: Option<string>): (r: ViewHistReply)
    ensures r == NoHistory <==> stored.None?
    ensures r.PlainText? <==> stored.Some? && format == Some("txt")
    ensures r.PlainText? ==> r.text == Join(stored.value.mensajes, "\n")
    ensures r.JsonHistory? ==> r.history == stored.value
    ensures r.Status() == 404 <==> stored.None?
    ensures r.Status() == 200 <==> stored.Some?
  {
    if stored.None? then NoHistory
    else if format == Some("txt") then PlainText(Join(stored.value.mensajes, "\n"))
    else JsonHistory(stored.value)
  }

  /** A stored history is downloaded as "historial.txt" with `format=txt`
      and as "historial.json" with any other format. */
  lemma ViewHistAttachment(h: History, format: Option<string>)
    ensures ViewHist(Some(h), format).AttachmentName()
         == if format == Some("txt") then "historial.txt" else "historial.json"
  {
  }

  /** Cutting a text at every occurrence of `sep` (the inverse of Join for
      parts that do not contain it). */
  function Split(s: string, sep: char): (parts: seq<string>)
    ensures |parts| >= 1
  {
    if s == [] then [""]
    else
      var rest := Split(s[1..], sep);
      if s[0] == sep then [""] + rest else [[s[0]] + rest[0]] + rest[1..]
  }

  lemma {:induction false} SplitWithoutSep(m: string, sep: char)
    requires sep !in m
    ensures Split(m, sep) == [m]
  {
    if m != [] {
      SplitWithoutSep(m[1..], sep);
      assert [m[0]] + m[1..] == m;
    }
  }

  lemma {:induction false} SplitAfterPart(m: string, sep: char, t: string)
    requires sep !in m
    ensures Split(m + [sep] + t, sep) == [m] + Split(t, sep)
  {
    if m == [] {
      assert m + [sep] + t == [sep] + t;
      assert ([sep] + t)[1..] == t;
    } else {
      var s := m + [sep] + t;
      assert s[0] == m[0] && s[1..] == m[1..] + [sep] + t;
      SplitAfterPart(m[1..], sep, t);
      assert [m[0]] + m[1..] == m;
    }
  }

  /** Messages that contain no newline survive the plain-text export: cutting
      the exported text at newlines gives back the list (provided it is not
      empty, since [] and [""] both export as ""). */
  lemma {:induction false} SplitJoin(ms: seq<string>)
    requires |ms| >= 1
    requires forall k :: 0 <= k < |ms| ==> '\n' !in ms[k]
    ensures Split(Join(ms, "\n"), '\n') == ms
  {
    if |ms| == 1 {
      SplitWithoutSep(ms[0], '\n');
    } else {
      SplitJoin(ms[1..]);
      SplitAfterPart(ms[0], '\n', Join(ms[1..], "\n"));
      assert [ms[0]] + ms[1..] == ms;
    }
  }

  /** Saving a history and then viewing it returns what was saved: the
      messages joined by newlines as text, or the document as JSON. */
  lemma SaveThenView(stored: Option<History>, ms: seq<string>, format: Option<string>)
    ensures var after := SaveHist(stored, Some(ms), true).stored;
      ViewHist(after, format) == if format == Some("txt") then PlainText(Join(ms, "\n"))
                                 else JsonHistory(History(ms))
  {
  }

  // ---------------------------------------------------------------- files

  /** The directory, relative to the server, that uploads go to and
      downloads come from. */
  const FilesDir := "archivos"

  function FilePath(name: string): string
  {
    FilesDir + "/" + name
  }

  /** `2 * 1024 * 1024` bytes. */
  const MaxUploadSize: nat := 2 * 1024 * 1024

  /** An uploaded file as `express-fileupload` describes it. */
  datatype UploadedFile = UploadedFile(name: string, size: nat)

  datatype UploadReply = NoFiles | FieldMissing | TooLarge | MoveFailed | Uploaded(path: string, size: nat)
  {
    /** FieldMissing is the TypeError of reading `.name` of an absent `file`
        field, which Express answers with 500. */
    function Status(): nat
    {
      match this
      case NoFiles => 400
      case FieldMissing => 500
      case TooLarge => 400
      case MoveFailed => 500
      case Uploaded(_, _) => 200
    }
  }

  /** `POST /upload`. `files` maps form field names to uploaded files (a
      request with no files is the empty map); `moveOk` is the outcome of
      `file.mv`. No files gives 400; a file strictly larger than
      MaxUploadSize gives 400; otherwise the file is moved under FilesDir
      keeping its name. */
  function Upload(files: map<string, UploadedFile>, moveOk: bool): (r: UploadReply)
    ensures r == NoFiles <==> files == map[]
    ensures r == TooLarge <==> "file" in files && files["file"].size > MaxUploadSize
    ensures r.Uploaded? <==> "file" in files && files["file"].size <= MaxUploadSize && moveOk
    ensures r.Uploaded? ==> r.path == FilePath(files["file"].name) && r.size == files["file"].size
    ensures r.Status() == 400 <==>
      (files == map[] || ("file" in files && files["file"].size > MaxUploadSize))
    ensures r.Status() == 500 <==>
      (files != map[] && ("file" !in files || (files["file"].size <= MaxUploadSize && !moveOk)))
    ensures r.Status() == 200 <==> r.Uploaded?
  {
    if files == map[] then NoFiles
    else if "file" !in files then FieldMissing
    else
      var file := files["file"];
      if file.size > MaxUploadSize then TooLarge
      else if !moveOk then MoveFailed
      else Uploaded(FilePath(file.name), file.size)
  }

  /** The size check is strict: exactly 2 MiB passes it, one byte more does not. */
  lemma UploadSizeBoundary(name: string, moveOk: bool)
    ensures MaxUploadSize == 2097152
    ensures Upload(map["file" := UploadedFile(name, MaxUploadSize)], moveOk) != TooLarge
    ensures Upload(map["file" := UploadedFile(name, MaxUploadSize + 1)], moveOk) == TooLarge
  {
  }

  /** `filename.includes('..')` */
  function ContainsDotDot(s: string): (b: bool)
    ensures b <==> exists i :: 0 <= i < |s| - 1 && s[i] == '.' && s[i + 1] == '.'
  {
    if |s| < 2 then false
    else (s[0] == '.' && s[1] == '.') || ContainsDotDot(s[1..])
  }

  datatype DownloadReply = InvalidName | FileMissing | FileSent(path: string, name: string)
  {
    function Status(): nat
    {
      match this
      case InvalidName => 400
      case FileMissing => 404
      case FileSent(_, _) => 200
    }
  }

  /** True when some '/'-separated segment of `name` is longer than one
      character and begins with '.': a dotfile, which `res.download` (through
      `send` and its `dotfiles: "ignore"` default) refuses to serve. */
  predicate HasDotSegment(name: string)
  {
    exists i :: 0 <= i < |name| && DotSegmentAt(name, i)
  }

  /** A segment longer than one character and beginning with '.' starts at `i`. */
  predicate DotSegmentAt(name: string, i: int)
  {
    0 <= i < |name| - 1 && name[i] == '.' && (i == 0 || name[i - 1] == '/') && name[i + 1] != '/'
  }

  /** `GET /api/descarga/:filename`. `present` is the set of paths of the
      regular files that exist; a directory is never in it. A name containing
      ".." is refused with 400; otherwise the file under FilesDir is sent as
      an attachment of the same name, or 404 when it is missing or is a
      dotfile, which `res.download` ignores. */
  function Download(filename: string, present: set<string>): (r: DownloadReply)
    ensures r == InvalidName <==> ContainsDotDot(filename)
    ensures r.FileSent? <==>
      !ContainsDotDot(filename) && !HasDotSegment(filename) && FilePath(filename) in present
    ensures r.FileSent? ==> r.path == FilePath(filename) && r.name == filename
    ensures r.Status() == 400 <==> ContainsDotDot(filename)
    ensures r.Status() == 404 <==>
      (!ContainsDotDot(filename) && (HasDotSegment(filename) || FilePath(filename) !in present))
    ensures r.Status() == 200 <==>
      !ContainsDotDot(filename) && !HasDotSegment(filename) && FilePath(filename) in present
  {
    if ContainsDotDot(filename) then InvalidName
    else if !HasDotSegment(filename) && FilePath(filename) in present then FileSent(FilePath(filename), filename)
    else FileMissing
  }

  /** A dotfile is answered 404 even when it is on disk. */
  lemma DownloadRefusesDotfile(present: set<string>)
    ensures Download(".env", present + {FilePath(".env")}) == FileMissing
  {
    assert DotSegmentAt(".env", 0);
  }

  /** A name with ".." is refused before any file is looked at: the reply
      does not depend on what is on disk. */
  lemma DownloadRejectsBeforeAccess(filename: string, a: set<string>, b: set<string>)
    requires ContainsDotDot(filename)
    ensures Download(filename, a) == InvalidName && Download(filename, b) == InvalidName
  {
  }

  /** A file that was uploaded can be downloaded under its name, when the
      name contains no ".." and is not a dotfile. */
  lemma UploadThenDownload(files: map<string, UploadedFile>, present: set<string>)
    requires Upload(files, true).Uploaded?
    requires !ContainsDotDot(files["file"].name) && !HasDotSegment(files["file"].name)
    ensures Download(files["file"].name, present + {Upload(files, true).path})
         == FileSent(Upload(files, true).path, files["file"].name)
  {
  }
}
